/**
 * Where the compiler and the machine meet: the relative offsets `if` emits
 * land, under the machine's jump rule, exactly on the false branch or just
 * past it; and a compiled `lambda` is a well-formed function value whose body
 * PUSH_FUNC steps over in one go.
 */
module Linkage {
  import opened Wrappers
  import opened Bytecode
  import opened SExps
  import opened Compiler
  import opened FormProps
  import M = Machine
  import MP = MachineProps
  import H = Heap

  /** Token `k` of code placed at `p` sits in cell `p + k`. */
  lemma {:induction false} CodeAtIndex(h: H.Mem, p: nat, ts: seq<Token>, k: nat)
    requires MP.CodeAt(h, p, ts) && k < |ts|
    ensures p + k < |h| && h[p + k] == H.Code(ts[k])
    decreases k
  {
    if k > 0 {
      assert ts[1..][k - 1] == ts[k];
      CodeAtIndex(h, p + 1, ts[1..], k - 1);
    }
  }

  // ---------------------------------------------------------------- if

  /**
   * `(if c t f)`: the true branch is compiled first, then the false branch,
   * then the condition, each seeing the locals the previous one left; the
   * code is the condition, the two relative jumps around the branches, and
   * the POP of an unused value.
   */
  lemma {:induction false} IfLayout(c: SExp, t: SExp, f: SExp, use: bool, env: Env, x: Expander, fuel: nat)
    ensures var r := Compile(List([Atom("if"), c, t, f]), use, Normal, env, x, fuel);
            var tr := Compile(t, true, Normal, env, x, fuel);
            var fr := Compile(f, true, Normal, if tr.Success? then tr.value.env else env, x, fuel);
            var cr := Compile(c, true, Normal, if fr.Success? then fr.value.env else env, x, fuel);
            && (r.Success? <==> tr.Success? && fr.Success? && cr.Success?)
            && (r.Success? ==> r.value.code == IfCode(cr.value.code, tr.value.code, fr.value.code) + PopMaybe(use)
                               && r.value.env == cr.value.env)
  {
    var args := [c, t, f];
    var r := Compile(List([Atom("if"), c, t, f]), use, Normal, env, x, fuel);
    assert r == If(args, use, env, x, fuel) by {
      IfIsSpecial();
      assert Special("if", args, use, env, x, fuel) == If(args, use, env, x, fuel) by {
        assert "if" in SpecialForms;
      }
      SpecialDispatch("if", args, use, env, x, fuel);
      assert [Atom("if")] + args == [Atom("if"), c, t, f];
    }
    assert Arg(args, 0) == Some(c) && Arg(args, 1) == Some(t) && Arg(args, 2) == Some(f);
    var tr := Compile(t, true, Normal, env, x, fuel);
    assert CompileOpt(Some(t), true, Normal, env, x, fuel) == tr;
    if tr.Success? {
      var fr := Compile(f, true, Normal, tr.value.env, x, fuel);
      assert CompileOpt(Some(f), true, Normal, tr.value.env, x, fuel) == fr;
      if fr.Success? {
        var cr := Compile(c, true, Normal, fr.value.env, x, fuel);
        assert CompileOpt(Some(c), true, Normal, fr.value.env, x, fuel) == cr;
      }
    }
  }

  lemma {:induction false} IfIsSpecial()
    ensures IsSpecial("if") && Mangle("if") == "if"
  {
    MangleKeeps("if");
  }

  /** Where the pieces of `IfCode(c, t, f)` sit. */
  lemma {:induction false} IfTokens(c: seq<Token>, t: seq<Token>, f: seq<Token>)
    ensures var ic := IfCode(c, t, f);
            && |ic| == |c| + |t| + |f| + 4
            && ic[|c|] == Op(JumpIfFalse) && ic[|c| + 1] == Num(|t| + 3)
            && ic[|c| + 2 + |t|] == Op(Jump) && ic[|c| + 3 + |t|] == Num(|f| + 1)
            && ic[|c| + 2..|c| + 2 + |t|] == t && ic[|c| + |t| + 4..] == f
  {
  }

  /** The JUMP_IF_FALSE of a placed `IfCode(c, t, f)` and its operand. */
  lemma {:induction false} IfTestAt(h: H.Mem, base: nat, c: seq<Token>, t: seq<Token>, f: seq<Token>)
    requires MP.CodeAt(h, base, IfCode(c, t, f))
    ensures base + |c| + 1 < |h|
    ensures h[base + |c|] == H.Code(Op(JumpIfFalse)) && h[base + |c| + 1] == H.Code(Num(|t| + 3))
  {
    IfTokens(c, t, f);
    CodeAtIndex(h, base, IfCode(c, t, f), |c|);
    CodeAtIndex(h, base, IfCode(c, t, f), |c| + 1);
  }

  /** The JUMP closing the true branch of a placed `IfCode(c, t, f)` and its operand. */
  lemma {:induction false} IfSkipAt(h: H.Mem, base: nat, c: seq<Token>, t: seq<Token>, f: seq<Token>)
    requires MP.CodeAt(h, base, IfCode(c, t, f))
    ensures base + |c| + 3 + |t| < |h|
    ensures h[base + |c| + 2 + |t|] == H.Code(Op(Jump)) && h[base + |c| + 3 + |t|] == H.Code(Num(|f| + 1))
    ensures |IfCode(c, t, f)| == |c| + |t| + |f| + 4
  {
    IfTokens(c, t, f);
    CodeAtIndex(h, base, IfCode(c, t, f), |c| + 2 + |t|);
    CodeAtIndex(h, base, IfCode(c, t, f), |c| + 3 + |t|);
  }

  /**
   * With the condition's value on the stack and the machine at JUMP_IF_FALSE,
   * a #f condition lands on the first token of the false branch.
   */
  lemma {:induction false} IfFalseLandsOnElse(vm: M.VM, base: nat, c: seq<Token>, t: seq<Token>, f: seq<Token>)
    requires MP.CodeAt(vm.heap, base, IfCode(c, t, f)) && vm.ip == base + |c|
    requires |vm.stack| > 0 && M.Last(vm.stack) == M.FalseAddress(vm).0
    ensures var s := M.Step(vm);
            && s.Success? && s.value.Running?
            && s.value.vm.ip == base + |c| + 2 + |t| + 2
            && s.value.vm.stack == M.DropLast(vm.stack)
  {
    IfTestAt(vm.heap, base, c, t, f);
    MP.JumpIfFalseStep(vm, |t| + 3);
  }

  /** Any other condition falls through into the true branch. */
  lemma {:induction false} IfTrueFallsIntoThen(vm: M.VM, base: nat, c: seq<Token>, t: seq<Token>, f: seq<Token>)
    requires MP.CodeAt(vm.heap, base, IfCode(c, t, f)) && vm.ip == base + |c|
    requires |vm.stack| > 0 && M.Last(vm.stack) != M.FalseAddress(vm).0
    ensures var s := M.Step(vm);
            && s.Success? && s.value.Running?
            && s.value.vm.ip == base + |c| + 2
            && s.value.vm.stack == M.DropLast(vm.stack)
  {
    IfTestAt(vm.heap, base, c, t, f);
    MP.JumpIfFalseStep(vm, |t| + 3);
  }

  /** At the end of the true branch the JUMP lands just past the false branch, changing nothing else. */
  lemma {:induction false} ThenJumpsPastElse(vm: M.VM, base: nat, c: seq<Token>, t: seq<Token>, f: seq<Token>)
    requires MP.CodeAt(vm.heap, base, IfCode(c, t, f)) && vm.ip == base + |c| + 2 + |t|
    ensures M.Step(vm) == Success(M.Running(vm.(ip := base + |IfCode(c, t, f)|)))
  {
    IfSkipAt(vm.heap, base, c, t, f);
    MP.JumpStep(vm, |f| + 1, base + |IfCode(c, t, f)|);
  }

  // ---------------------------------------------------------------- lambda

  /** The parameter binding of fixed names as structured instructions: PUSH_ARG, then SET_LOCAL name. */
  function ParamInstrs(ps: seq<SExp>): (ins: seq<MP.Instr>)
    requires AllAtoms(ps)
    ensures |ins| == 2 * |ps|
    decreases |ps|
  {
    if |ps| == 0 then []
    else [MP.Simple(PushArg, []), MP.Simple(SetLocal, [Txt(ps[0].s)])] + ParamInstrs(ps[1..])
  }

  lemma {:induction false} EncodeAppend(a: seq<MP.Instr>, b: seq<MP.Instr>)
    ensures MP.Encode(a + b) == MP.Encode(a) + MP.Encode(b)
    decreases |a|
  {
    if |a| > 0 {
      assert (a + b)[0] == a[0] && (a + b)[1..] == a[1..] + b;
      EncodeAppend(a[1..], b);
    } else {
      assert a + b == b;
    }
  }

  lemma {:induction false} AllAtomsTail(ps: seq<SExp>)
    requires |ps| > 0 && AllAtoms(ps)
    ensures AllAtoms(ps[1..])
  {
    forall k | 0 <= k < |ps[1..]| ensures ps[1..][k].Atom? { assert ps[1..][k] == ps[k + 1]; }
  }

  /** One parameter's PUSH_ARG, SET_LOCAL name pair, flattened and checked. */
  lemma {:induction false} ParamPair(name: string)
    ensures MP.Encode([MP.Simple(PushArg, []), MP.Simple(SetLocal, [Txt(name)])]) == [Op(PushArg), Op(SetLocal), Txt(name)]
    ensures MP.WellFormedOne(MP.Simple(PushArg, [])) && MP.WellFormedOne(MP.Simple(SetLocal, [Txt(name)]))
  {
    var pair := [MP.Simple(PushArg, []), MP.Simple(SetLocal, [Txt(name)])];
    var second := [MP.Simple(SetLocal, [Txt(name)])];
    assert pair[1..] == second;
    assert second[1..] == [];
    assert MP.Encode(second) == [Op(SetLocal), Txt(name)] + MP.Encode([]);
    assert MP.Encode(pair) == [Op(PushArg)] + MP.Encode(second);
  }

  /** The tokens fixed parameters compile to are exactly the encoding of these instructions. */
  lemma {:induction false} FixedParamsEncode(ps: seq<SExp>)
    requires AllAtoms(ps)
    ensures MP.Encode(ParamInstrs(ps)) == FixedParams(ps)
    decreases |ps|
  {
    if |ps| > 0 {
      var head := [MP.Simple(PushArg, []), MP.Simple(SetLocal, [Txt(ps[0].s)])];
      AllAtomsTail(ps);
      FixedParamsEncode(ps[1..]);
      EncodeAppend(head, ParamInstrs(ps[1..]));
      ParamPair(ps[0].s);
    }
  }

  /** ... and those instructions are well formed. */
  lemma {:induction false} ParamInstrsWellFormed(ps: seq<SExp>)
    requires AllAtoms(ps)
    ensures MP.WellFormed(ParamInstrs(ps))
    decreases |ps|
  {
    if |ps| > 0 {
      AllAtomsTail(ps);
      ParamInstrsWellFormed(ps[1..]);
      ParamPair(ps[0].s);
      var ins := ParamInstrs(ps);
      forall k | 0 <= k < |ins| ensures MP.WellFormedOne(ins[k]) {
        if k >= 2 {
          assert ins[k] == ParamInstrs(ps[1..])[k - 2];
        }
      }
    }
  }

  /** The body of `(lambda (p ...) v)` as structured instructions: bind, read `v`, RETURN. */
  function NameBody(ps: seq<SExp>, v: string): seq<MP.Instr>
    requires AllAtoms(ps)
  {
    ParamInstrs(ps) + [MP.Simple(if v in Names(ps) then PushLocal else PushRemote, [Txt(v)]), MP.Simple(Return, [])]
  }

  /**
   * `(lambda (p ...) v)` over fixed parameters compiles to one function
   * value whose body binds the parameters, reads `v` as a local exactly when
   * it is a parameter, and returns; the POP of an unused value follows ENDF.
   */
  lemma {:induction false} LambdaOfName(ps: seq<SExp>, v: string, use: bool, env: Env, x: Expander, fuel: nat)
    requires AllAtoms(ps) && Atom(".") !in ps && IsName(v)
    ensures var r := Compile(List([Atom("lambda"), List(ps), Atom(v)]), use, Normal, env, x, fuel);
            && r.Success? && r.value.env == env
            && r.value.code == MP.EncodeOne(MP.Func(NameBody(ps, v))) + PopMaybe(use)
            && MP.WellFormed(NameBody(ps, v))
  {
    var read := PushVar(v, Env(Names(ps), map[]));
    var r := Compile(List([Atom("lambda"), List(ps), Atom(v)]), use, Normal, env, x, fuel);
    var code := [Op(PushFunc)] + FixedParams(ps) + read + [Op(Return), Op(Endf)] + PopMaybe(use);
    assert r == Success(Piece(code, Plain, env)) by {
      LambdaNameCode(ps, v, use, env, x, fuel);
    }
    var fn := MP.EncodeOne(MP.Func(NameBody(ps, v)));
    assert fn + PopMaybe(use) == code by {
      FixedParamsEncode(ps);
      NameBodyEncode(ps, v);
      assert fn == [Op(PushFunc)] + (FixedParams(ps) + read + [Op(Return)]) + [Op(Endf)];
    }
    NameBodyWellFormed(ps, v);
  }

  /** The tokens of `(lambda (p ...) v)`, read off the compiler. */
  lemma {:induction false} LambdaNameCode(ps: seq<SExp>, v: string, use: bool, env: Env, x: Expander, fuel: nat)
    requires AllAtoms(ps) && Atom(".") !in ps && IsName(v)
    ensures Compile(List([Atom("lambda"), List(ps), Atom(v)]), use, Normal, env, x, fuel)
            == Success(Piece([Op(PushFunc)] + FixedParams(ps) + PushVar(v, Env(Names(ps), map[]))
                             + [Op(Return), Op(Endf)] + PopMaybe(use), Plain, env))
  {
    var args := [List(ps), Atom(v)];
    LambdaDispatch(args, use, env, x, fuel);
    assert [Atom("lambda")] + args == [Atom("lambda"), List(ps), Atom(v)];
    LambdaOfNames(ps, v, use, env, x, fuel);
  }

  /** A list headed by `lambda` is compiled by the lambda handler. */
  lemma {:induction false} LambdaDispatch(args: seq<SExp>, use: bool, env: Env, x: Expander, fuel: nat)
    ensures Compile(List([Atom("lambda")] + args), use, Normal, env, x, fuel) == Lambda(args, use, env, x, fuel)
  {
    LambdaIsSpecial();
    assert Special("lambda", args, use, env, x, fuel) == Lambda(args, use, env, x, fuel) by {
      assert "lambda" in SpecialForms;
    }
    SpecialDispatch("lambda", args, use, env, x, fuel);
  }

  /**
   * `(lambda ps body ...)` for any parameters and body: PUSH_FUNC, the
   * parameter code, the body compiled against the parameter names alone (no
   * outer locals, no macros), RETURN, ENDF, and the POP of an unused value;
   * a bad parameter list or a body that fails to compile fails the form.
   */
  lemma {:induction false} LambdaLayout(ps: SExp, body: seq<SExp>, use: bool, env: Env, x: Expander, fuel: nat)
    ensures var r := Compile(List([Atom("lambda"), ps] + body), use, Normal, env, x, fuel);
            var p := LambdaParams(Some(ps));
            && (p.Failure? ==> r == Failure(p.error))
            && (p.Success? ==>
                  var b := Body(body, Env(p.value.locals, map[]), x, fuel);
                  && (b.Failure? ==> r == Failure(b.error))
                  && (b.Success? ==>
                        r == Success(Piece([Op(PushFunc)] + p.value.code + b.value.0 + [Op(Return), Op(Endf)]
                                           + PopMaybe(use), Plain, env))))
  {
    var args := [ps] + body;
    LambdaDispatch(args, use, env, x, fuel);
    assert [Atom("lambda"), ps] + body == [Atom("lambda")] + args;
    assert Arg(args, 0) == Some(ps) && args[1..] == body;
  }

  /** The lambda handler on fixed parameters and a single name as body. */
  lemma {:induction false} LambdaOfNames(ps: seq<SExp>, v: string, use: bool, env: Env, x: Expander, fuel: nat)
    requires AllAtoms(ps) && Atom(".") !in ps && IsName(v)
    ensures Lambda([List(ps), Atom(v)], use, env, x, fuel)
            == Success(Piece([Op(PushFunc)] + FixedParams(ps) + PushVar(v, Env(Names(ps), map[]))
                             + [Op(Return), Op(Endf)] + PopMaybe(use), Plain, env))
  {
    var args := [List(ps), Atom(v)];
    var inner := Env(Names(ps), map[]);
    assert Arg(args, 0) == Some(List(ps)) && args[1..] == [Atom(v)];
    assert LambdaParams(Some(List(ps))) == Success(Params(FixedParams(ps), Names(ps)));
    ReferenceBody(v, inner, x, fuel);
  }

  /** The body's reading of `v` and its RETURN, flattened. */
  lemma {:induction false} NameBodyEncode(ps: seq<SExp>, v: string)
    requires AllAtoms(ps)
    ensures MP.Encode(NameBody(ps, v)) == MP.Encode(ParamInstrs(ps)) + PushVar(v, Env(Names(ps), map[])) + [Op(Return)]
  {
    var op := if v in Names(ps) then PushLocal else PushRemote;
    var tail := [MP.Simple(op, [Txt(v)]), MP.Simple(Return, [])];
    EncodeAppend(ParamInstrs(ps), tail);
    var last := [MP.Simple(Return, [])];
    assert tail[1..] == last;
    assert last[1..] == [];
    assert MP.Encode(last) == [Op(Return)] + MP.Encode([]);
    assert MP.Encode(tail) == [Op(op), Txt(v)] + MP.Encode(last);
  }

  lemma {:induction false} NameBodyWellFormed(ps: seq<SExp>, v: string)
    requires AllAtoms(ps)
    ensures MP.WellFormed(NameBody(ps, v))
  {
    ParamInstrsWellFormed(ps);
    var body := NameBody(ps, v);
    var n := |ParamInstrs(ps)|;
    forall k | 0 <= k < |body| ensures MP.WellFormedOne(body[k]) {
      if k < n {
        assert body[k] == ParamInstrs(ps)[k];
      }
    }
  }

  lemma {:induction false} LambdaIsSpecial()
    ensures IsSpecial("lambda") && Mangle("lambda") == "lambda"
  {
    MangleKeeps("lambda");
  }

  /**
   * A compiled `(lambda (p ...) v)`, placed where the instruction pointer
   * is, is run by pushing the address of its first body token and resuming
   * just after its ENDF, that is, on the POP of an unused value or past the
   * whole form.
   */
  lemma {:induction false} LambdaValueSkipsBody(vm: M.VM, ps: seq<SExp>, v: string, use: bool, env: Env, x: Expander, fuel: nat)
    requires AllAtoms(ps) && Atom(".") !in ps && IsName(v)
    ensures var r := Compile(List([Atom("lambda"), List(ps), Atom(v)]), use, Normal, env, x, fuel);
            && r.Success? && |PopMaybe(use)| < |r.value.code|
            && MP.StepsOverTo(vm, r.value.code, PopMaybe(use))
  {
    var r := Compile(List([Atom("lambda"), List(ps), Atom(v)]), use, Normal, env, x, fuel);
    var body := NameBody(ps, v);
    assert r.Success? && r.value.code == MP.EncodeOne(MP.Func(body)) + PopMaybe(use) && MP.WellFormed(body) by {
      LambdaOfName(ps, v, use, env, x, fuel);
    }
    FuncValueSkips(vm, r.value.code, body, PopMaybe(use));
  }

  /** Code that starts with a function value, whatever follows it, is stepped over that value in one go. */
  lemma {:induction false} FuncValueSkips(vm: M.VM, code: seq<Token>, body: seq<MP.Instr>, tail: seq<Token>)
    requires MP.WellFormed(body) && code == MP.EncodeOne(MP.Func(body)) + tail
    ensures MP.StepsOverTo(vm, code, tail)
  {
    if MP.CodeAt(vm.heap, vm.ip, code) {
      MP.CodeAtSplit(vm.heap, vm.ip, MP.EncodeOne(MP.Func(body)), tail);
      MP.PushFuncSkipsBody(vm, body);
    }
  }

  /** Loading puts the whole of the code where the instruction pointer starts. */
  lemma {:induction false} LoadedInPlace(vm: M.VM, code: seq<Token>)
    ensures var w := M.Load(vm, code);
            MP.CodeAt(w.heap, w.ip, code)
  {
    LoadedCodeAt(vm, code, |code|);
    assert code[..|code|] == code;
  }

  /** Any prefix of freshly loaded code is in place at the start address. */
  lemma {:induction false} LoadedCodeAt(vm: M.VM, code: seq<Token>, n: nat)
    requires n <= |code|
    ensures MP.CodeAt(M.Load(vm, code).heap, |vm.heap|, code[..n])
  {
    var h := M.Load(vm, code).heap;
    CodeAtFrom(h, |vm.heap|, code[..n]);
  }

  lemma {:induction false} CodeAtFrom(h: H.Mem, p: nat, ts: seq<Token>)
    requires p + |ts| <= |h|
    requires forall i :: 0 <= i < |ts| ==> h[p + i] == H.Code(ts[i])
    ensures MP.CodeAt(h, p, ts)
    decreases |ts|
  {
    if |ts| > 0 {
      assert forall i :: 0 <= i < |ts| - 1 ==> h[p + 1 + i] == H.Code(ts[1..][i]) by {
        forall i | 0 <= i < |ts| - 1 ensures h[p + 1 + i] == H.Code(ts[1..][i]) {
          assert h[p + (i + 1)] == H.Code(ts[i + 1]);
        }
      }
      CodeAtFrom(h, p + 1, ts[1..]);
    }
  }
}
