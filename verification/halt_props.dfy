/**
 * HALT belongs to the program, not to any form: no compiled form contains
 * the HALT instruction, so a compiled program holds exactly one HALT when it
 * asks for one and none otherwise.
 */
module HaltProps {
  import opened Wrappers
  import opened Bytecode
  import opened SExps
  import opened Macros
  import opened Compiler

  predicate HaltFree(code: seq<Token>) {
    Op(Halt) !in code
  }

  predicate AllHaltFree(css: seq<seq<Token>>) {
    forall k :: 0 <= k < |css| ==> HaltFree(css[k])
  }

  /** A compiled piece without HALT in its code or in the members its shape records. */
  predicate PieceHaltFree(r: Result<Piece, CompileError>) {
    r.Success? ==> HaltFree(r.value.code) && (r.value.shape.Plain? || AllHaltFree(r.value.shape.members))
  }

  predicate CodeHaltFree(r: Result<(seq<Token>, Env), CompileError>) {
    r.Success? ==> HaltFree(r.value.0)
  }

  // ---------------------------------------------------------------- the fixed layouts

  lemma {:induction false} ConcatHaltFree(css: seq<seq<Token>>)
    requires AllHaltFree(css)
    ensures HaltFree(Concat(css))
    decreases |css|
  {
    if |css| > 0 {
      assert AllHaltFree(css[1..]) by {
        forall k | 0 <= k < |css| - 1 ensures HaltFree(css[1..][k]) {
          assert css[1..][k] == css[k + 1];
        }
      }
      ConcatHaltFree(css[1..]);
    }
  }

  lemma {:induction false} AppendHaltFree(a: seq<Token>, b: seq<Token>)
    requires HaltFree(a) && HaltFree(b)
    ensures HaltFree(a + b)
  {
    assert forall t :: t in a + b ==> t in a || t in b;
  }

  lemma {:induction false} ListPieceHaltFree(members: seq<seq<Token>>, use: bool, env: Env)
    requires AllHaltFree(members)
    ensures PieceHaltFree(Success(ListPiece(members, use, env)))
  {
    ConcatHaltFree(members);
  }

  lemma {:induction false} AtomTextsHaltFree(e: SExp)
    ensures HaltFree(AtomTexts(e))
    decreases e
  {
    if e.List? {
      AtomTextsAllHaltFree(e.items);
    }
  }

  lemma {:induction false} AtomTextsAllHaltFree(es: seq<SExp>)
    ensures HaltFree(AtomTextsAll(es))
    decreases es
  {
    if |es| > 0 {
      AtomTextsHaltFree(es[0]);
      AtomTextsAllHaltFree(es[1..]);
    }
  }

  lemma {:induction false} FixedParamsHaltFree(ps: seq<SExp>)
    requires AllAtoms(ps)
    ensures HaltFree(FixedParams(ps))
    decreases |ps|
  {
    if |ps| > 0 {
      assert AllAtoms(ps[1..]) by {
        forall k | 0 <= k < |ps| - 1 ensures ps[1..][k].Atom? { assert ps[1..][k] == ps[k + 1]; }
      }
      FixedParamsHaltFree(ps[1..]);
      assert FixedParams(ps) == [Op(PushArg), Op(SetLocal), Txt(ps[0].s)] + FixedParams(ps[1..]);
    }
  }

  lemma {:induction false} ParamsHaltFree(p: Option<SExp>)
    ensures LambdaParams(p).Success? ==> HaltFree(LambdaParams(p).value.code)
  {
    if p.Some? && p.value.List? {
      var ps := p.value.items;
      if Atom(".") in ps {
        var cs := SliceAtDots(ps);
        if |cs| >= 3 && AllAtoms(cs[0]) && AllAtoms(cs[2]) {
          FixedParamsHaltFree(cs[0]);
        }
      } else if AllAtoms(ps) {
        FixedParamsHaltFree(ps);
      }
    }
  }

  lemma {:induction false} LiteralHaltFree(text: string, use: bool, mode: Mode, env: Env)
    ensures HaltFree(Literal(text, use, mode, env))
  {
    var t := Strip(text);
    KindHaltFree(Classify(t), t, use, mode, env);
  }

  lemma {:induction false} KindHaltFree(k: LitKind, t: string, use: bool, mode: Mode, env: Env)
    ensures HaltFree(LiteralCode(k, t, use, mode, env))
  {
  }

  // ---------------------------------------------------------------- the recursive compiler

  lemma {:induction false} CompileHaltFree(e: SExp, use: bool, mode: Mode, env: Env, x: Expander, fuel: nat)
    ensures PieceHaltFree(Compile(e, use, mode, env, x, fuel))
    decreases fuel, Size(e), 1
  {
    match e
    case Atom(s) => LiteralHaltFree(s, use, mode, env);
    case List(es) => if |es| > 0 { FormHaltFree(es, use, mode, env, x, fuel); }
  }

  lemma {:induction false} OptHaltFree(o: Option<SExp>, use: bool, mode: Mode, env: Env, x: Expander, fuel: nat)
    ensures PieceHaltFree(CompileOpt(o, use, mode, env, x, fuel))
    decreases fuel, Rank(o), 2
  {
    if o.Some? {
      CompileHaltFree(o.value, use, mode, env, x, fuel);
    }
  }

  lemma {:induction false} FormHaltFree(es: seq<SExp>, use: bool, mode: Mode, env: Env, x: Expander, fuel: nat)
    requires |es| > 0
    ensures PieceHaltFree(Form(es, use, mode, env, x, fuel))
    decreases fuel, SizeAll(es), 6
  {
    if mode != Normal {
      QuotedHaltFree(es, use, mode, env, x, fuel);
    } else {
      DispatchHaltFree(es, use, env, x, fuel);
    }
  }

  lemma {:induction false} QuotedHaltFree(es: seq<SExp>, use: bool, mode: Mode, env: Env, x: Expander, fuel: nat)
    requires |es| > 0 && mode != Normal
    ensures PieceHaltFree(Quoted(es, use, mode, env, x, fuel))
    decreases fuel, SizeAll(es), 5
  {
    SizeElement(es, 0);
    var name := es[0];
    if mode == Quasi && name.Atom? && Contains(name.s, "unquote") {
      var o := CompileOpt(Arg(es[1..], 0), use, Normal, env, x, fuel);
      OptHaltFree(Arg(es[1..], 0), use, Normal, env, x, fuel);
      if o.Success? && name.s == "unquote-splicing" && o.value.shape.Listy? {
        ConcatHaltFree(o.value.shape.members);
      }
    } else {
      var m := Members(es, mode, env, x, fuel);
      MembersHaltFree(es, mode, env, x, fuel);
      if m.Success? {
        ListPieceHaltFree(m.value.0, use, m.value.1);
      }
    }
  }

  lemma {:induction false} DispatchHaltFree(es: seq<SExp>, use: bool, env: Env, x: Expander, fuel: nat)
    requires |es| > 0
    ensures PieceHaltFree(Dispatch(es, use, env, x, fuel))
    decreases fuel, SizeAll(es), 5
  {
    SizeElement(es, 0);
    var name := es[0];
    if name.List? {
      CallHaltFree(es, env, x, fuel);
    } else if IsSpecial(name.s) {
      SpecialHaltFree(Mangle(name.s), es[1..], use, env, x, fuel);
    } else if name.s in env.syntax {
      if fuel > 0 && x(env.syntax[name.s], List(es)).Some? {
        CompileHaltFree(x(env.syntax[name.s], List(es)).value, true, Normal, env, x, fuel - 1);
      }
    } else {
      CallHaltFree(es, env, x, fuel);
    }
  }

  lemma {:induction false} CallHaltFree(es: seq<SExp>, env: Env, x: Expander, fuel: nat)
    requires |es| > 0
    ensures PieceHaltFree(CallForm(es, env, x, fuel))
    decreases fuel, SizeAll(es), 3
  {
    SizeElement(es, 0);
    var a := Args(es[1..], env, x, fuel);
    ArgsHaltFree(es[1..], env, x, fuel);
    if a.Success? {
      CompileHaltFree(es[0], true, Normal, a.value.1, x, fuel);
    }
  }

  lemma {:induction false} ArgsHaltFree(es: seq<SExp>, env: Env, x: Expander, fuel: nat)
    ensures CodeHaltFree(Args(es, env, x, fuel))
    decreases fuel, SizeAll(es), 2
  {
    if |es| > 0 {
      SizeElement(es, 0);
      var p := Compile(es[0], true, Normal, env, x, fuel);
      CompileHaltFree(es[0], true, Normal, env, x, fuel);
      if p.Success? {
        ArgsHaltFree(es[1..], p.value.env, x, fuel);
      }
    }
  }

  lemma {:induction false} BodyHaltFree(es: seq<SExp>, env: Env, x: Expander, fuel: nat)
    ensures CodeHaltFree(Body(es, env, x, fuel))
    decreases fuel, SizeAll(es), 2
  {
    if |es| > 0 {
      SizeElement(es, 0);
      var p := Compile(es[0], |es| == 1, Normal, env, x, fuel);
      CompileHaltFree(es[0], |es| == 1, Normal, env, x, fuel);
      if p.Success? {
        BodyHaltFree(es[1..], p.value.env, x, fuel);
      }
    }
  }

  lemma {:induction false} MembersHaltFree(es: seq<SExp>, mode: Mode, env: Env, x: Expander, fuel: nat)
    ensures var r := Members(es, mode, env, x, fuel);
            r.Success? ==> AllHaltFree(r.value.0)
    decreases fuel, SizeAll(es), 2
  {
    if |es| > 0 {
      SizeElement(es, 0);
      var p := Compile(es[0], true, mode, env, x, fuel);
      CompileHaltFree(es[0], true, mode, env, x, fuel);
      if p.Success? {
        MembersHaltFree(es[1..], mode, p.value.env, x, fuel);
        var rest := Members(es[1..], mode, p.value.env, x, fuel);
        if rest.Success? {
          var mine := if p.value.shape.Spliced? then p.value.shape.members else [p.value.code];
          assert AllHaltFree(mine + rest.value.0) by {
            forall k | 0 <= k < |mine| + |rest.value.0| ensures HaltFree((mine + rest.value.0)[k]) {
              if k < |mine| { assert (mine + rest.value.0)[k] == mine[k]; }
              else { assert (mine + rest.value.0)[k] == rest.value.0[k - |mine|]; }
            }
          }
        }
      }
    }
  }

  // ---------------------------------------------------------------- the special forms

  lemma {:induction false} UnaryHaltFree(args: seq<SExp>, op: Opcode, use: bool, env: Env, x: Expander, fuel: nat)
    requires op != Halt
    ensures PieceHaltFree(Unary(args, op, use, env, x, fuel))
    decreases fuel, SizeAll(args), 3
  {
    OptHaltFree(Arg(args, 0), true, Normal, env, x, fuel);
  }

  lemma {:induction false} BinaryHaltFree(args: seq<SExp>, op: Opcode, use: bool, env: Env, x: Expander, fuel: nat)
    requires op != Halt
    ensures PieceHaltFree(Binary(args, op, use, env, x, fuel))
    decreases fuel, SizeAll(args), 3
  {
    var a := CompileOpt(Arg(args, 0), true, Normal, env, x, fuel);
    OptHaltFree(Arg(args, 0), true, Normal, env, x, fuel);
    if a.Success? {
      OptHaltFree(Arg(args, 1), true, Normal, a.value.env, x, fuel);
    }
  }

  lemma {:induction false} IfHaltFree(args: seq<SExp>, use: bool, env: Env, x: Expander, fuel: nat)
    ensures PieceHaltFree(If(args, use, env, x, fuel))
    decreases fuel, SizeAll(args), 3
  {
    var t := CompileOpt(Arg(args, 1), true, Normal, env, x, fuel);
    OptHaltFree(Arg(args, 1), true, Normal, env, x, fuel);
    if t.Success? {
      var f := CompileOpt(Arg(args, 2), true, Normal, t.value.env, x, fuel);
      OptHaltFree(Arg(args, 2), true, Normal, t.value.env, x, fuel);
      if f.Success? {
        OptHaltFree(Arg(args, 0), true, Normal, f.value.env, x, fuel);
      }
    }
  }

  lemma {:induction false} LambdaHaltFree(args: seq<SExp>, use: bool, env: Env, x: Expander, fuel: nat)
    ensures PieceHaltFree(Lambda(args, use, env, x, fuel))
    decreases fuel, SizeAll(args), 3
  {
    var p := LambdaParams(Arg(args, 0));
    ParamsHaltFree(Arg(args, 0));
    if p.Success? {
      var bodyForms := if |args| == 0 then [] else args[1..];
      SizeDrop(args, if |args| == 0 then 0 else 1);
      BodyHaltFree(bodyForms, Env(p.value.locals, map[]), x, fuel);
    }
  }

  lemma {:induction false} ApplyHaltFree(args: seq<SExp>, env: Env, x: Expander, fuel: nat)
    ensures PieceHaltFree(ApplyForm(args, env, x, fuel))
    decreases fuel, SizeAll(args), 3
  {
    if |args| >= 2 {
      SizeElement(args, 0);
      var a := Args(args[1..], env, x, fuel);
      ArgsHaltFree(args[1..], env, x, fuel);
      if a.Success? {
        var f := Compile(args[0], true, Normal, a.value.1, x, fuel);
        CompileHaltFree(args[0], true, Normal, a.value.1, x, fuel);
        if f.Success? {
          var staging := [Op(PushNum), Num(|args| - 1), Op(SetArgs)];
          assert ApplyForm(args, env, x, fuel)
              == Success(Piece(a.value.0 + staging + f.value.code + [Op(Apply)], Plain, f.value.env));
          AppendHaltFree(a.value.0, staging);
          AppendHaltFree(a.value.0 + staging, f.value.code);
          AppendHaltFree(a.value.0 + staging + f.value.code, [Op(Apply)]);
        }
      }
    }
  }

  lemma {:induction false} DefineHaltFree(args: seq<SExp>, env: Env, x: Expander, fuel: nat)
    ensures PieceHaltFree(Define(args, env, x, fuel))
    decreases fuel, SizeAll(args), 3
  {
    if Arg(args, 0).Some? && Arg(args, 0).value.Atom? {
      var n := Arg(args, 0).value.s;
      OptHaltFree(Arg(args, 1), true, Normal, env.(locals := env.locals + {n}), x, fuel);
    }
  }

  /** Each handler in turn: HALT is not among the instructions any of them emits. */
  lemma {:induction false} SpecialHaltFree(m: string, args: seq<SExp>, use: bool, env: Env, x: Expander, fuel: nat)
    requires m in SpecialForms
    ensures PieceHaltFree(Special(m, args, use, env, x, fuel))
    decreases fuel, SizeAll(args), 4, 1
  {
    var r := Special(m, args, use, env, x, fuel);
    if m == "begin" {
      BodyHaltFree(args, env, x, fuel);
    } else if m in {"car", "cdr", "null?", "string_length", "list_to_string"} {
      SpecialUnaryHaltFree(m, args, use, env, x, fuel);
    } else if m in {"cons", "append", "write"} {
      ArgsHaltFree(args, env, x, fuel);
    } else if m in {"string_ref", "+", "-", ">", ">=", "<", "<=", "=", "eq?"} {
      SpecialBinaryHaltFree(m, args, use, env, x, fuel);
    } else if m == "quote" {
      OptHaltFree(Arg(args, 0), use, Quote, env, x, fuel);
    } else if m == "quasiquote" {
      OptHaltFree(Arg(args, 0), use, Quasi, env, x, fuel);
    } else if m == "define" {
      DefineHaltFree(args, env, x, fuel);
    } else if m == "lambda" {
      LambdaHaltFree(args, use, env, x, fuel);
    } else if m == "apply" {
      ApplyHaltFree(args, env, x, fuel);
    } else if m == "list" {
      var ms := Members(args, Normal, env, x, fuel);
      MembersHaltFree(args, Normal, env, x, fuel);
      if ms.Success? {
        ListPieceHaltFree(ms.value.0, use, ms.value.1);
      }
    } else if m == "syntax_rules" {
      var tr := SyntaxRules(args);
      if tr.Some? {
        AtomTextsHaltFree(tr.value);
      }
    } else if m == "if" {
      IfHaltFree(args, use, env, x, fuel);
    } else if m == "include" {
      OptHaltFree(Arg(args, 0), true, Normal, env, x, fuel);
    }
  }

  /** `SpecialHaltFree` for the forms of one operand and one instruction. */
  lemma {:induction false} SpecialUnaryHaltFree(m: string, args: seq<SExp>, use: bool, env: Env, x: Expander, fuel: nat)
    requires m in {"car", "cdr", "null?", "string_length", "list_to_string"}
    ensures PieceHaltFree(Special(m, args, use, env, x, fuel))
    decreases fuel, SizeAll(args), 4, 0
  {
    var op := if m == "car" then PushCar else if m == "cdr" then PushCdr else if m == "null?" then CmpNull
              else if m == "string_length" then StrLen else ListToStr;
    assert Special(m, args, use, env, x, fuel) == Unary(args, op, use, env, x, fuel);
    UnaryHaltFree(args, op, use, env, x, fuel);
  }

  /** `SpecialHaltFree` for the forms of two operands and one instruction. */
  lemma {:induction false} SpecialBinaryHaltFree(m: string, args: seq<SExp>, use: bool, env: Env, x: Expander, fuel: nat)
    requires m in {"string_ref", "+", "-", ">", ">=", "<", "<=", "=", "eq?"}
    ensures PieceHaltFree(Special(m, args, use, env, x, fuel))
    decreases fuel, SizeAll(args), 4, 0
  {
    var op := if m == "string_ref" then StrRef else if m == "+" then Add else if m == "-" then Sub
              else if m == ">" then CmpGt else if m == ">=" then CmpGte else if m == "<" then CmpLt
              else if m == "<=" then CmpLte else if m == "=" then CmpEqNum else CmpEq;
    assert Special(m, args, use, env, x, fuel) == Binary(args, op, use, env, x, fuel);
    BinaryHaltFree(args, op, use, env, x, fuel);
  }

  // ---------------------------------------------------------------- programs

  /**
   * `compile` appends HALT only when asked: a compiled program holds exactly
   * one HALT, as its last instruction, when it asks for one, and none when it
   * does not; with or without it the forms compile alike.
   */
  lemma {:induction false} ProgramHalt(es: seq<SExp>, halt: bool, x: Expander, fuel: nat)
    ensures Program(es, halt, x, fuel).Success? <==> Program(es, !halt, x, fuel).Success?
    ensures var r := Program(es, halt, x, fuel);
            r.Success? ==> multiset(r.value)[Op(Halt)] == (if halt then 1 else 0)
    ensures var r := Program(es, halt, x, fuel);
            r.Success? && halt ==> |r.value| > 0 && r.value[|r.value| - 1] == Op(Halt)
  {
    var b := Body(es, Env({}, map[]), x, fuel);
    BodyHaltFree(es, Env({}, map[]), x, fuel);
    if b.Success? {
      assert multiset(b.value.0)[Op(Halt)] == 0;
      if halt {
        assert multiset(b.value.0 + [Op(Halt)]) == multiset(b.value.0) + multiset{Op(Halt)};
      }
    }
  }
}
