/**
 * What the compiler promises: how atoms are classified, what the use flag
 * changes, that quoted data is independent of everything around it, and how
 * the bytecode of a literal behaves once the machine loads it.
 */
module CompilerProps {
  import opened Wrappers
  import opened Bytecode
  import opened SExps
  import opened Compiler
  import Heap
  import Machine
  import MachineProps

  // ---------------------------------------------------------------- literals

  /** A text without surrounding white space is its own `strip`. */
  lemma {:induction false} StripKeeps(t: string)
    requires |t| > 0 ==> !IsSpace(t[0]) && !IsSpace(t[|t| - 1])
    ensures Strip(t) == t
  {
  }

  /**
   * Numbers, booleans, characters and ordinary variable references end in
   * POP exactly when their value is unused; strings, empty atoms and quoted
   * names never do.
   */
  lemma {:induction false} LiteralUse(text: string, mode: Mode, env: Env)
    ensures var k := Classify(Strip(text));
            var keeps := k.StrLit? || k == NoLit || (k == Variable && mode != Normal);
            Literal(text, false, mode, env) == Literal(text, true, mode, env) + (if keeps then [] else [Op(Pop)])
  {
    var t := Strip(text);
    KindUse(Classify(t), t, mode, env);
  }

  /** A used atom never ends in POP. */
  lemma {:induction false} LiteralNoPop(text: string, mode: Mode, env: Env)
    ensures var code := Literal(text, true, mode, env);
            |code| == 0 || code[|code| - 1] != Op(Pop)
  {
    var t := Strip(text);
    KindUse(Classify(t), t, mode, env);
  }

  lemma {:induction false} KindUse(k: LitKind, t: string, mode: Mode, env: Env)
    ensures var keeps := k.StrLit? || k == NoLit || (k == Variable && mode != Normal);
            LiteralCode(k, t, false, mode, env) == LiteralCode(k, t, true, mode, env) + (if keeps then [] else [Op(Pop)])
    ensures var code := LiteralCode(k, t, true, mode, env);
            |code| == 0 || code[|code| - 1] != Op(Pop)
  {
  }

  /** The decimal text of a number compiles to PUSH_NUM of that text, which the machine reads back as the number. */
  lemma {:induction false} NumberLiteral(n: nat, use: bool, mode: Mode, env: Env)
    ensures Literal(Decimal(n), use, mode, env) == [Op(PushNum), Txt(Decimal(n))] + PopMaybe(use)
    ensures ToI(Txt(Decimal(n))) == Some(n)
  {
    var d := Decimal(n);
    TextToIntDecimal(n);
    DigitText(d, use, mode, env);
  }

  /** Text that starts and ends with a digit is a number literal, whatever lies between. */
  lemma {:induction false} DigitText(t: string, use: bool, mode: Mode, env: Env)
    requires |t| > 0 && IsDigit(t[0]) && IsDigit(t[|t| - 1])
    ensures Literal(t, use, mode, env) == [Op(PushNum), Txt(t)] + PopMaybe(use)
  {
    StripKeeps(t);
    assert !IsLower(t[0]) && t[0] != '#' && t[0] != '"';
    assert Classify(t) == NumLit;
  }

  /** A lower-case name is a variable reference, local exactly when `define` bound it; under a quote it is an atom. */
  lemma {:induction false} VariableLiteral(t: string, use: bool, mode: Mode, env: Env)
    requires |t| > 0 && IsLower(t[0]) && !IsSpace(t[|t| - 1])
    ensures mode == Normal ==>
              Literal(t, use, mode, env) == [Op(if t in env.locals then PushLocal else PushRemote), Txt(t)] + PopMaybe(use)
    ensures mode != Normal ==> Literal(t, use, mode, env) == [Op(PushAtom), Txt(t)]
  {
    StripKeeps(t);
  }

  /** A one-line string literal pushes its contents between the quotes, used or not. */
  lemma {:induction false} StringLiteral(b: string, use: bool, mode: Mode, env: Env)
    requires '\n' !in b
    ensures Literal("\"" + b + "\"", use, mode, env) == [Op(PushStr), Txt(b)]
  {
    var t := "\"" + b + "\"";
    StripKeeps(t);
    assert t[1..|t| - 1] == b;
  }

  /** `#\space` and `#\newline` name their characters; any other `#\x...` stands for its first character. */
  lemma {:induction false} CharLiteral(r: string, use: bool, mode: Mode, env: Env)
    requires |r| > 0 && '\n' !in r && !IsSpace(r[|r| - 1])
    ensures Literal("#\\" + r, use, mode, env) == [Op(PushChar), Txt([CharName(r)])] + PopMaybe(use)
    ensures r == "space" ==> CharName(r) == ' '
    ensures r == "newline" ==> CharName(r) == '\n'
    ensures r != "space" && r != "newline" ==> CharName(r) == r[0]
  {
    var t := "#\\" + r;
    StripKeeps(t);
    assert t[2..] == r;
  }

  /** The booleans push their singletons, with a POP when unused. */
  lemma {:induction false} BooleanLiterals(use: bool, mode: Mode, env: Env)
    ensures Literal("#t", use, mode, env) == [Op(PushTrue)] + PopMaybe(use)
    ensures Literal("#f", use, mode, env) == [Op(PushFalse)] + PopMaybe(use)
  {
    TrueText();
    FalseText();
  }

  // The facts about the two texts are kept in lemmas of their own: computed
  // inline next to `Literal`, they make the solver's work grow sharply.

  lemma {:induction false} TrueText()
    ensures Strip("#t") == "#t" && Classify("#t") == TrueLit
  {
    TrueStrip();
    TrueClass();
  }

  lemma {:induction false} TrueStrip()
    ensures Strip("#t") == "#t"
  {
    StripKeeps("#t");
  }

  lemma {:induction false} TrueClass()
    ensures Classify("#t") == TrueLit
  {
  }

  lemma {:induction false} FalseText()
    ensures Strip("#f") == "#f" && Classify("#f") == FalseLit
  {
    FalseStrip();
    FalseClass();
  }

  lemma {:induction false} FalseStrip()
    ensures Strip("#f") == "#f"
  {
    StripKeeps("#f");
  }

  lemma {:induction false} FalseClass()
    ensures Classify("#f") == FalseLit
  {
  }

  /** Loaded and stepped once, a compiled number leaves the address of a fresh cell holding that number. */
  lemma {:induction false} NumberLiteralRuns(vm: Machine.VM, n: nat, env: Env)
    ensures var w := Machine.Load(vm, Literal(Decimal(n), true, Normal, env));
            var s := Machine.Step(w);
            var a := Heap.Alloc(w.heap);
            && s.Success? && s.value.Running?
            && s.value.vm.ip == |vm.heap| + 2
            && s.value.vm.stack == vm.stack + [a]
            && a < |s.value.vm.heap| && s.value.vm.heap[a] == Heap.Val(Heap.Integer(n))
  {
    var t := Decimal(n);
    assert Literal(t, true, Normal, env) == [Op(PushNum), Txt(t)] && ToI(Txt(t)) == Some(n) by {
      NumberLiteral(n, true, Normal, env);
      assert PopMaybe(true) == [];
    }
    PushNumRuns(vm, t, n);
  }

  /** PUSH_NUM of text that reads as `n`, loaded and stepped once, leaves the address of a fresh cell holding `n`. */
  lemma {:induction false} PushNumRuns(vm: Machine.VM, t: string, n: int)
    requires ToI(Txt(t)) == Some(n)
    ensures var w := Machine.Load(vm, [Op(PushNum), Txt(t)]);
            var s := Machine.Step(w);
            var a := Heap.Alloc(w.heap);
            && s.Success? && s.value.Running?
            && s.value.vm.ip == |vm.heap| + 2
            && s.value.vm.stack == vm.stack + [a]
            && a < |s.value.vm.heap| && s.value.vm.heap[a] == Heap.Val(Heap.Integer(n))
  {
    var w := Machine.Load(vm, [Op(PushNum), Txt(t)]);
    assert w.heap[w.ip] == Heap.Code(Op(PushNum)) && w.heap[w.ip + 1] == Heap.Code(Txt(t));
    assert Machine.LiteralValue(PushNum, Txt(t)) == Some(Heap.Integer(n));
    MachineProps.PushLiteralStep(w, PushNum, Txt(t));
  }

  /** Loaded and stepped once, a compiled string leaves the address of a fresh cell holding its contents. */
  lemma {:induction false} StringLiteralRuns(vm: Machine.VM, b: string, use: bool, env: Env)
    requires '\n' !in b
    ensures var w := Machine.Load(vm, Literal("\"" + b + "\"", use, Normal, env));
            var s := Machine.Step(w);
            var a := Heap.Alloc(w.heap);
            && s.Success? && s.value.Running?
            && s.value.vm.ip == |vm.heap| + 2
            && s.value.vm.stack == vm.stack + [a]
            && a < |s.value.vm.heap| && s.value.vm.heap[a] == Heap.Val(Heap.ByteArray(b))
  {
    var code := [Op(PushStr), Txt(b)];
    assert Literal("\"" + b + "\"", use, Normal, env) == code by {
      StringLiteral(b, use, Normal, env);
    }
    var w := Machine.Load(vm, code);
    assert w.heap[w.ip] == Heap.Code(Op(PushStr)) && w.heap[w.ip + 1] == Heap.Code(Txt(b));
    assert Machine.LiteralValue(PushStr, Txt(b)) == Some(Heap.ByteArray(b));
    MachineProps.PushLiteralStep(w, PushStr, Txt(b));
  }

  // ---------------------------------------------------------------- list forms

  /** A non-empty list in normal mode is dispatched on its head. */
  lemma {:induction false} NormalList(es: seq<SExp>, use: bool, env: Env, x: Expander, fuel: nat)
    requires |es| > 0
    ensures Compile(List(es), use, Normal, env, x, fuel) == Dispatch(es, use, env, x, fuel)
  {
    assert Compile(List(es), use, Normal, env, x, fuel) == Form(es, use, Normal, env, x, fuel);
  }

  /** A non-empty list under quote or quasiquote is quoted data, an unquote or a splice. */
  lemma {:induction false} QuotedList(es: seq<SExp>, use: bool, mode: Mode, env: Env, x: Expander, fuel: nat)
    requires |es| > 0 && mode != Normal
    ensures Compile(List(es), use, mode, env, x, fuel) == Quoted(es, use, mode, env, x, fuel)
  {
    assert Compile(List(es), use, mode, env, x, fuel) == Form(es, use, mode, env, x, fuel);
  }

  // ---------------------------------------------------------------- the use flag

  /**
   * `f` is a form compiled with its value unused and `t` the same form with
   * it used: whenever the first compiles, so does the second, to the same
   * tables, and the first is the second or the second followed by POP. An
   * unused form is never list-shaped.
   */
  predicate UseVariant(f: Result<Piece, CompileError>, t: Result<Piece, CompileError>) {
    f.Success? ==>
      && t.Success? && !f.value.shape.Listy? && f.value.env == t.value.env
      && (f.value.code == t.value.code || f.value.code == t.value.code + [Op(Pop)])
  }

  lemma {:induction false} UseCompile(e: SExp, mode: Mode, env: Env, x: Expander, fuel: nat)
    ensures UseVariant(Compile(e, false, mode, env, x, fuel), Compile(e, true, mode, env, x, fuel))
    decreases fuel, Size(e), 1
  {
    match e
    case Atom(s) => LiteralUse(s, mode, env);
    case List(es) => if |es| > 0 { UseForm(es, mode, env, x, fuel); }
  }

  lemma {:induction false} UseOpt(o: Option<SExp>, mode: Mode, env: Env, x: Expander, fuel: nat)
    ensures UseVariant(CompileOpt(o, false, mode, env, x, fuel), CompileOpt(o, true, mode, env, x, fuel))
    decreases fuel, Rank(o), 2
  {
    if o.Some? {
      UseCompile(o.value, mode, env, x, fuel);
    }
  }

  lemma {:induction false} UseForm(es: seq<SExp>, mode: Mode, env: Env, x: Expander, fuel: nat)
    requires |es| > 0
    ensures UseVariant(Form(es, false, mode, env, x, fuel), Form(es, true, mode, env, x, fuel))
    decreases fuel, SizeAll(es), 6
  {
    if mode != Normal {
      UseQuoted(es, mode, env, x, fuel);
    } else {
      UseDispatch(es, env, x, fuel);
    }
  }

  lemma {:induction false} UseQuoted(es: seq<SExp>, mode: Mode, env: Env, x: Expander, fuel: nat)
    requires |es| > 0 && mode != Normal
    ensures UseVariant(Quoted(es, false, mode, env, x, fuel), Quoted(es, true, mode, env, x, fuel))
    decreases fuel, SizeAll(es), 5
  {
    SizeElement(es, 0);
    var name := es[0];
    if mode == Quasi && name.Atom? && Contains(name.s, "unquote") {
      UseOpt(Arg(es[1..], 0), Normal, env, x, fuel);
    }
  }

  lemma {:induction false} UseDispatch(es: seq<SExp>, env: Env, x: Expander, fuel: nat)
    requires |es| > 0
    ensures UseVariant(Dispatch(es, false, env, x, fuel), Dispatch(es, true, env, x, fuel))
    decreases fuel, SizeAll(es), 5
  {
    SizeElement(es, 0);
    var name := es[0];
    if name.Atom? && IsSpecial(name.s) {
      UseSpecial(Mangle(name.s), es[1..], env, x, fuel);
    }
  }

  lemma {:induction false} UseSpecial(m: string, args: seq<SExp>, env: Env, x: Expander, fuel: nat)
    requires m in SpecialForms
    ensures UseVariant(Special(m, args, false, env, x, fuel), Special(m, args, true, env, x, fuel))
    decreases fuel, SizeAll(args), 4
  {
    var f := Special(m, args, false, env, x, fuel);
    var t := Special(m, args, true, env, x, fuel);
    if m == "quote" {
      UseOpt(Arg(args, 0), Quote, env, x, fuel);
    } else if m == "quasiquote" {
      assert f == CompileOpt(Arg(args, 0), false, Quasi, env, x, fuel);
      assert t == CompileOpt(Arg(args, 0), true, Quasi, env, x, fuel);
      UseOpt(Arg(args, 0), Quasi, env, x, fuel);
    } else if m in {"car", "cdr", "null?", "string_length", "list_to_string"} {
      UseUnary(m, args, env, x, fuel);
    } else if m in {"string_ref", "+", "-", ">", ">=", "<", "<=", "=", "eq?"} {
      UseBinary(m, args, env, x, fuel);
    } else if m == "if" {
      assert f == If(args, false, env, x, fuel) && t == If(args, true, env, x, fuel);
    } else if m == "lambda" {
      assert f == Lambda(args, false, env, x, fuel) && t == Lambda(args, true, env, x, fuel);
    }
  }

  /** `UseSpecial` for the forms of one operand and one instruction. */
  lemma {:induction false} UseUnary(m: string, args: seq<SExp>, env: Env, x: Expander, fuel: nat)
    requires m in {"car", "cdr", "null?", "string_length", "list_to_string"}
    ensures UseVariant(Special(m, args, false, env, x, fuel), Special(m, args, true, env, x, fuel))
  {
    var op := if m == "car" then PushCar else if m == "cdr" then PushCdr else if m == "null?" then CmpNull
              else if m == "string_length" then StrLen else ListToStr;
    assert Special(m, args, false, env, x, fuel) == Unary(args, op, false, env, x, fuel);
    assert Special(m, args, true, env, x, fuel) == Unary(args, op, true, env, x, fuel);
  }

  /** `UseSpecial` for the forms of two operands and one instruction. */
  lemma {:induction false} UseBinary(m: string, args: seq<SExp>, env: Env, x: Expander, fuel: nat)
    requires m in {"string_ref", "+", "-", ">", ">=", "<", "<=", "=", "eq?"}
    ensures UseVariant(Special(m, args, false, env, x, fuel), Special(m, args, true, env, x, fuel))
  {
    var op := if m == "string_ref" then StrRef else if m == "+" then Add else if m == "-" then Sub
              else if m == ">" then CmpGt else if m == ">=" then CmpGte else if m == "<" then CmpLt
              else if m == "<=" then CmpLte else if m == "=" then CmpEqNum else CmpEq;
    assert Special(m, args, false, env, x, fuel) == Binary(args, op, false, env, x, fuel);
    assert Special(m, args, true, env, x, fuel) == Binary(args, op, true, env, x, fuel);
  }

  // ---------------------------------------------------------------- quoted data

  /** Quoted data reads neither table, nor the expander, nor the fuel. */
  lemma {:induction false} QuoteCompile(e: SExp, use: bool, env1: Env, env2: Env, x1: Expander, x2: Expander, f1: nat, f2: nat)
    ensures Compile(e, use, Quote, env1, x1, f1).value.(env := env2) == Compile(e, use, Quote, env2, x2, f2).value
    decreases Size(e), 0
  {
    if e.List? && |e.items| > 0 {
      QuotedList(e.items, use, Quote, env1, x1, f1);
      QuotedList(e.items, use, Quote, env2, x2, f2);
      QuoteMembers(e.items, env1, env2, x1, x2, f1, f2);
    }
  }

  lemma {:induction false} QuoteMembers(es: seq<SExp>, env1: Env, env2: Env, x1: Expander, x2: Expander, f1: nat, f2: nat)
    ensures Members(es, Quote, env1, x1, f1).value.0 == Members(es, Quote, env2, x2, f2).value.0
    decreases SizeAll(es), 1
  {
    if |es| > 0 {
      SizeElement(es, 0);
      QuoteCompile(es[0], true, env1, env2, x1, x2, f1, f2);
      QuoteMembers(es[1..], env1, env2, x1, x2, f1, f2);
    }
  }

  /** No atom anywhere in the tree mentions `unquote`. */
  predicate NoUnquote(e: SExp)
    decreases e
  {
    match e
    case Atom(s) => !Contains(s, "unquote")
    case List(es) => forall k :: 0 <= k < |es| ==> NoUnquote(es[k])
  }

  /** Without `unquote`, a quasiquote compiles exactly as a quote. */
  lemma {:induction false} QuasiCompile(e: SExp, use: bool, env: Env, x: Expander, fuel: nat)
    requires NoUnquote(e)
    ensures Compile(e, use, Quasi, env, x, fuel) == Compile(e, use, Quote, env, x, fuel)
    decreases Size(e), 0
  {
    if e.List? && |e.items| > 0 {
      QuotedList(e.items, use, Quasi, env, x, fuel);
      QuotedList(e.items, use, Quote, env, x, fuel);
      QuasiMembers(e.items, env, x, fuel);
    }
  }

  lemma {:induction false} QuasiMembers(es: seq<SExp>, env: Env, x: Expander, fuel: nat)
    requires forall k :: 0 <= k < |es| ==> NoUnquote(es[k])
    ensures Members(es, Quasi, env, x, fuel) == Members(es, Quote, env, x, fuel)
    decreases SizeAll(es), 1
  {
    if |es| > 0 {
      SizeElement(es, 0);
      QuasiCompile(es[0], true, env, x, fuel);
      QuasiMembers(es[1..], env, x, fuel);
    }
  }
}
