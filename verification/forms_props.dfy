/**
 * What the special forms promise: the names that reach each handler, the
 * parameter shapes of `lambda`, `define` making a name local for the forms
 * after it, argument staging for calls and `apply`, the compile-time errors,
 * splicing, macro use and definition, and the use flag of a body.
 */
module FormProps {
  import opened Wrappers
  import opened Bytecode
  import opened SExps
  import opened Macros
  import opened Compiler
  import opened CompilerProps

  // ---------------------------------------------------------------- handler names

  lemma {:induction false} ArrowsKeep(s: string)
    requires '>' !in s
    ensures ArrowsToTo(s) == s
    decreases |s|
  {
    if |s| > 0 {
      NotInTail(s, '>');
      ArrowsKeep(s[1..]);
    }
  }

  lemma {:induction false} DashesKeep(s: string)
    requires '-' !in s
    ensures LetterDashes(s) == s
    decreases |s|
  {
    if |s| > 0 {
      NotInTail(s, '-');
      DashesKeep(s[1..]);
    }
  }

  /** A name with neither a dash nor `>` is its own handler name. */
  lemma {:induction false} MangleKeeps(s: string)
    requires '-' !in s && '>' !in s
    ensures Mangle(s) == s
  {
    ArrowsKeep(s);
    DashesKeep(s);
  }

  lemma {:induction false} ArrowsSplit(a: string, b: string)
    requires '-' !in a
    ensures ArrowsToTo(a + "->" + b) == a + "_to_" + ArrowsToTo(b)
    decreases |a|
  {
    if |a| == 0 {
      assert a + "->" + b == "->" + b;
      assert ("->" + b)[2..] == b;
    } else {
      NotInTail(a, '-');
      ArrowsSplit(a[1..], b);
      assert (a + "->" + b)[1..] == a[1..] + "->" + b;
    }
  }

  lemma {:induction false} DashesSplit(a: string, c: char, b: string)
    requires '-' !in a && IsLower(c)
    ensures LetterDashes(a + [c, '-'] + b) == a + [c, '_'] + LetterDashes(b)
    decreases |a|
  {
    var s := a + [c, '-'] + b;
    if |a| == 0 {
      assert s[2..] == b;
    } else {
      NotInTail(a, '-');
      assert s[1] != '-' by {
        if |a| > 1 { assert s[1] == a[1]; } else { assert s[1] == c; }
      }
      DashesSplit(a[1..], c, b);
      assert s[1..] == a[1..] + [c, '-'] + b;
    }
  }

  /** One letter-dash pair in an otherwise plain name becomes letter-underscore. */
  lemma {:induction false} MangleDash(a: string, c: char, b: string)
    requires '-' !in a && '>' !in a && '-' !in b && '>' !in b && IsLower(c)
    ensures Mangle(a + [c, '-'] + b) == a + [c, '_'] + b
  {
    var s := a + [c, '-'] + b;
    assert '>' !in s by {
      assert forall k :: 0 <= k < |s| ==> s[k] == (if k < |a| then a[k] else if k == |a| then c else if k == |a| + 1 then '-' else b[k - |a| - 2]);
    }
    ArrowsKeep(s);
    DashesSplit(a, c, b);
    DashesKeep(b);
  }

  /** One arrow in an otherwise plain name becomes `_to_`. */
  lemma {:induction false} MangleArrow(a: string, b: string)
    requires '-' !in a && '>' !in a && '-' !in b && '>' !in b && '_' !in a && '_' !in b
    ensures Mangle(a + "->" + b) == a + "_to_" + b
  {
    var t := a + "_to_" + b;
    assert ArrowsToTo(a + "->" + b) == t by {
      ArrowsSplit(a, b);
      ArrowsKeep(b);
    }
    assert LetterDashes(t) == t by {
      NotInJoin('-', a, "_to_", b);
      DashesKeep(t);
    }
  }

  /** What a sequence lacks, its tail lacks too. */
  lemma {:induction false} NotInTail<T>(s: seq<T>, c: T)
    requires |s| > 0 && c !in s
    ensures c !in s[1..]
  {
    forall k | 0 <= k < |s| - 1 ensures s[1..][k] != c { assert s[1..][k] == s[k + 1]; }
  }

  /** A character in none of three strings is not in their concatenation. */
  lemma {:induction false} NotInJoin(c: char, a: string, m: string, b: string)
    requires c !in a && c !in m && c !in b
    ensures c !in a + m + b
  {
  }

  lemma {:induction false} StringRefName()
    ensures Mangle("string-ref") == "string_ref"
  {
    MangleDash("strin", 'g', "ref");
    assert "strin" + ['g', '-'] + "ref" == "string-ref";
    assert "strin" + ['g', '_'] + "ref" == "string_ref";
  }

  lemma {:induction false} StringLengthName()
    ensures Mangle("string-length") == "string_length"
  {
    MangleDash("strin", 'g', "length");
    assert "strin" + ['g', '-'] + "length" == "string-length";
    assert "strin" + ['g', '_'] + "length" == "string_length";
  }

  lemma {:induction false} ListToStringName()
    ensures Mangle("list->string") == "list_to_string"
  {
    MangleArrow("list", "string");
    assert "list" + "->" + "string" == "list->string";
    assert "list" + "_to_" + "string" == "list_to_string";
  }

  lemma {:induction false} DefineSyntaxName()
    ensures Mangle("define-syntax") == "define_syntax"
  {
    MangleDash("defin", 'e', "syntax");
    assert "defin" + ['e', '-'] + "syntax" == "define-syntax";
    assert "defin" + ['e', '_'] + "syntax" == "define_syntax";
  }

  lemma {:induction false} SyntaxRulesName()
    ensures Mangle("syntax-rules") == "syntax_rules"
  {
    MangleDash("synta", 'x', "rules");
    assert "synta" + ['x', '-'] + "rules" == "syntax-rules";
    assert "synta" + ['x', '_'] + "rules" == "syntax_rules";
  }

  /** The spellings with a dash or an arrow reach the handlers named with underscores and `_to_`. */
  lemma {:induction false} SurfaceNames()
    ensures Mangle("string-ref") == "string_ref"
    ensures Mangle("string-length") == "string_length"
    ensures Mangle("list->string") == "list_to_string"
    ensures Mangle("define-syntax") == "define_syntax"
    ensures Mangle("syntax-rules") == "syntax_rules"
  {
    StringRefName();
    StringLengthName();
    ListToStringName();
    DefineSyntaxName();
    SyntaxRulesName();
  }

  /** A list headed by a special form's name goes to that form's handler, under its mangled name. */
  lemma {:induction false} SpecialDispatch(n: string, args: seq<SExp>, use: bool, env: Env, x: Expander, fuel: nat)
    requires IsSpecial(n)
    ensures Compile(List([Atom(n)] + args), use, Normal, env, x, fuel) == Special(Mangle(n), args, use, env, x, fuel)
  {
    var es := [Atom(n)] + args;
    NormalList(es, use, env, x, fuel);
    assert es[0] == Atom(n) && es[1..] == args;
  }

  // ---------------------------------------------------------------- lambda parameters

  /** `slice_when` leaves a list without `.` in one piece. */
  lemma {:induction false} SliceNoDots(ps: seq<SExp>)
    requires |ps| > 0 && Atom(".") !in ps
    ensures SliceAtDots(ps) == [ps]
    decreases |ps|
  {
    if |ps| > 1 {
      NotInTail(ps, Atom("."));
      SliceNoDots(ps[1..]);
      assert [ps[0]] + ps[1..] == ps;
    }
  }

  /** With names on both sides of one `.`, the cut yields exactly three chunks: before, the dot, after. */
  lemma {:induction false} SliceDotted(named: seq<SExp>, rest: seq<SExp>)
    requires |named| > 0 && |rest| > 0 && Atom(".") !in named && Atom(".") !in rest
    ensures SliceAtDots(named + [Atom(".")] + rest) == [named, [Atom(".")], rest]
    decreases |named|
  {
    var ps := named + [Atom(".")] + rest;
    var tail := [Atom(".")] + rest;
    assert SliceAtDots(tail) == [[Atom(".")], rest] by {
      SliceNoDots(rest);
      assert tail[1..] == rest;
    }
    if |named| == 1 {
      assert ps[1..] == tail;
      assert IsDot(ps[1]);
      assert named == [ps[0]];
    } else {
      NotInTail(named, Atom("."));
      SliceDotted(named[1..], rest);
      assert ps[1..] == named[1..] + [Atom(".")] + rest;
      assert !IsDot(ps[0]) && !IsDot(ps[1]) by {
        assert ps[0] == named[0] && ps[1] == named[1];
      }
      assert [named[0]] + named[1..] == named;
    }
  }

  function Flatten(cs: seq<seq<SExp>>): seq<SExp>
    decreases |cs|
  {
    if |cs| == 0 then [] else cs[0] + Flatten(cs[1..])
  }

  /** The cut only cuts: the chunks put back together are the parameter list. */
  lemma {:induction false} SliceRejoins(ps: seq<SExp>)
    ensures Flatten(SliceAtDots(ps)) == ps
    decreases |ps|
  {
    if |ps| == 1 {
      assert Flatten([ps]) == ps + Flatten([]);
    } else if |ps| > 1 {
      var cs := SliceAtDots(ps[1..]);
      var out := SliceAtDots(ps);
      SliceRejoins(ps[1..]);
      assert Flatten(cs) == cs[0] + Flatten(cs[1..]);
      if IsDot(ps[0]) || IsDot(ps[1]) {
        assert out[0] == [ps[0]] && out[1..] == cs;
      } else {
        assert out[0] == [ps[0]] + cs[0] && out[1..] == cs[1..];
      }
      assert Flatten(out) == out[0] + Flatten(out[1..]);
      assert [ps[0]] + ps[1..] == ps;
    }
  }

  /** A `.` always ends up in a chunk of its own. */
  lemma {:induction false} SliceIsolatesDots(ps: seq<SExp>)
    ensures forall k :: 0 <= k < |SliceAtDots(ps)| && Atom(".") in SliceAtDots(ps)[k] ==> SliceAtDots(ps)[k] == [Atom(".")]
    decreases |ps|
  {
    if |ps| > 1 {
      var cs := SliceAtDots(ps[1..]);
      var out := SliceAtDots(ps);
      SliceIsolatesDots(ps[1..]);
      if IsDot(ps[0]) || IsDot(ps[1]) {
        assert out[0] == [ps[0]];
        assert forall k :: 1 <= k < |out| ==> out[k] == cs[k - 1];
      } else {
        assert cs[0][0] == ps[1];
        assert Atom(".") !in cs[0];
        assert out[0] == [ps[0]] + cs[0];
        assert forall k :: 1 <= k < |out| ==> out[k] == cs[k];
      }
    }
  }

  /**
   * A dotted parameter list binds the names before the dot one argument each,
   * then the first name after it to the list of the remaining arguments;
   * every name on either side becomes local to the body.
   */
  lemma {:induction false} DottedParams(named: seq<SExp>, rest: seq<SExp>)
    requires |named| > 0 && |rest| > 0 && Atom(".") !in named && Atom(".") !in rest
    requires AllAtoms(named) && AllAtoms(rest)
    ensures LambdaParams(Some(List(named + [Atom(".")] + rest)))
            == Success(Params(FixedParams(named) + [Op(PushArgs), Op(SetLocal), Txt(rest[0].s)],
                              Names(named) + Names(rest)))
  {
    var ps := named + [Atom(".")] + rest;
    assert ps[|named|] == Atom(".");
    SliceDotted(named, rest);
  }

  /** A dot with no name before it, or none after it, is rejected. */
  lemma {:induction false} DotAtAnEnd(ps: seq<SExp>)
    requires Atom(".") !in ps
    ensures LambdaParams(Some(List([Atom(".")] + ps))) == Failure(BadParams)
    ensures LambdaParams(Some(List(ps + [Atom(".")]))) == Failure(BadParams)
  {
    var front := [Atom(".")] + ps;
    var back := ps + [Atom(".")];
    assert front[0] == Atom(".") && back[|ps|] == Atom(".");
    if |ps| > 0 {
      SliceNoDots(ps);
      assert front[1..] == ps;
      assert SliceAtDots(front) == [[Atom(".")], ps];
      assert SliceAtDots(back) == [ps, [Atom(".")]] by {
        SliceBack(ps);
      }
    } else {
      assert front == [Atom(".")] && back == [Atom(".")];
    }
  }

  lemma {:induction false} SliceBack(ps: seq<SExp>)
    requires |ps| > 0 && Atom(".") !in ps
    ensures SliceAtDots(ps + [Atom(".")]) == [ps, [Atom(".")]]
    decreases |ps|
  {
    var s := ps + [Atom(".")];
    if |ps| == 1 {
      assert s[1..] == [Atom(".")];
      assert SliceAtDots(s[1..]) == [[Atom(".")]];
      assert IsDot(s[1]);
      assert ps == [s[0]];
    } else {
      NotInTail(ps, Atom("."));
      SliceBack(ps[1..]);
      assert s[1..] == ps[1..] + [Atom(".")];
      assert s[0] == ps[0] && s[1] == ps[1];
      assert [ps[0]] + ps[1..] == ps;
    }
  }

  // ---------------------------------------------------------------- define

  predicate IsName(n: string) {
    |n| > 0 && IsLower(n[0]) && !IsSpace(n[|n| - 1])
  }

  /** A `define` statement compiles its value with the name already local, then SET_LOCAL. */
  lemma {:induction false} DefineStatement(n: string, v: SExp, env: Env, x: Expander, fuel: nat)
    ensures var d := Compile(v, true, Normal, env.(locals := env.locals + {n}), x, fuel);
            var r := Compile(List([Atom("define"), Atom(n), v]), false, Normal, env, x, fuel);
            && (r.Success? <==> d.Success?)
            && (r.Success? ==> r.value.code == d.value.code + [Op(SetLocal), Txt(n)] && r.value.env == d.value.env)
  {
    DefineDispatch([Atom(n), v], env, x, fuel);
    assert [Atom("define")] + [Atom(n), v] == [Atom("define"), Atom(n), v];
    DefineOfName(n, v, env, x, fuel);
  }

  lemma {:induction false} DefineDispatch(args: seq<SExp>, env: Env, x: Expander, fuel: nat)
    ensures Compile(List([Atom("define")] + args), false, Normal, env, x, fuel) == Define(args, env, x, fuel)
  {
    MangleKeeps("define");
    assert "define" in SpecialForms;
    SpecialDispatch("define", args, false, env, x, fuel);
    assert Special("define", args, false, env, x, fuel) == Define(args, env, x, fuel);
  }

  lemma {:induction false} DefineOfName(n: string, v: SExp, env: Env, x: Expander, fuel: nat)
    ensures var d := Compile(v, true, Normal, env.(locals := env.locals + {n}), x, fuel);
            var r := Define([Atom(n), v], env, x, fuel);
            && (r.Success? <==> d.Success?)
            && (r.Success? ==> r.value.code == d.value.code + [Op(SetLocal), Txt(n)] && r.value.env == d.value.env)
  {
    var args := [Atom(n), v];
    assert Arg(args, 0) == Some(Atom(n)) && Arg(args, 1) == Some(v);
  }

  /** A body that is one name reads the name and keeps its value. */
  lemma {:induction false} ReferenceBody(n: string, env: Env, x: Expander, fuel: nat)
    requires IsName(n)
    ensures Body([Atom(n)], env, x, fuel) == Success((PushVar(n, env), env))
  {
    var es := [Atom(n)];
    var lit := Literal(n, true, Normal, env);
    assert lit == PushVar(n, env) by {
      VariableLiteral(n, true, Normal, env);
      assert PopMaybe(true) == [];
    }
    assert es[0] == Atom(n) && es[1..] == [];
    var p := Compile(Atom(n), true, Normal, env, x, fuel);
    assert p == Success(Piece(lit, Plain, env));
    assert Body([], env, x, fuel) == Success(([], env));
    assert lit + [] == lit;
  }

  /**
   * `define` makes the name local before its value is compiled, and a later
   * reference in the same body reads it with PUSH_LOCAL; the definition
   * itself leaves nothing on the stack.
   */
  lemma {:induction false} DefineThenReference(n: string, v: SExp, env: Env, x: Expander, fuel: nat)
    requires IsName(n)
    ensures var d := Compile(v, true, Normal, env.(locals := env.locals + {n}), x, fuel);
            var r := Body([List([Atom("define"), Atom(n), v]), Atom(n)], env, x, fuel);
            && (r.Success? <==> d.Success?)
            && (r.Success? ==> r.value.0 == d.value.code + [Op(SetLocal), Txt(n), Op(PushLocal), Txt(n)]
                               && n in r.value.1.locals)
  {
    var def := List([Atom("define"), Atom(n), v]);
    var d := Compile(v, true, Normal, env.(locals := env.locals + {n}), x, fuel);
    var s := Compile(def, false, Normal, env, x, fuel);
    DefineStatement(n, v, env, x, fuel);
    ThenReference(def, n, env, x, fuel);
    if s.Success? {
      assert n in s.value.env.locals by {
        assert Keeps(env.(locals := env.locals + {n}), d.value.env);
      }
    }
  }

  /** A statement followed by a name compiles to the statement, then a read of the name where the statement left the tables. */
  lemma {:induction false} ThenReference(st: SExp, n: string, env: Env, x: Expander, fuel: nat)
    requires IsName(n)
    ensures var s := Compile(st, false, Normal, env, x, fuel);
            var r := Body([st, Atom(n)], env, x, fuel);
            && (s.Failure? ==> r == Failure(s.error))
            && (s.Success? ==> r == Success((s.value.code + PushVar(n, s.value.env), s.value.env)))
  {
    var es := [st, Atom(n)];
    assert es[0] == st && es[1..] == [Atom(n)];
    var s := Compile(st, false, Normal, env, x, fuel);
    if s.Success? {
      ReferenceBody(n, s.value.env, x, fuel);
    }
  }


  // ---------------------------------------------------------------- calls and their errors

  /** `cons` takes exactly two arguments and then pushes one pair of them. */
  lemma {:induction false} ConsNeedsTwo(args: seq<SExp>, use: bool, env: Env, x: Expander, fuel: nat)
    ensures var r := Compile(List([Atom("cons")] + args), use, Normal, env, x, fuel);
            && (|args| != 2 ==> r == Failure(ConsArity))
            && (|args| == 2 ==> (r.Success? <==> Args(args, env, x, fuel).Success?))
            && (r.Success? ==> r.value.code == Args(args, env, x, fuel).value.0 + [Op(PushCons)] + PopMaybe(use))
  {
    MangleKeeps("cons");
    assert "cons" in SpecialForms;
    SpecialDispatch("cons", args, use, env, x, fuel);
  }

  /**
   * `apply` needs the function and at least one argument; it stages the
   * argument count, evaluates the function after the arguments, and ends in
   * APPLY, whether its value is used or not.
   */
  lemma {:induction false} ApplyStaging(args: seq<SExp>, use: bool, env: Env, x: Expander, fuel: nat)
    ensures var r := Compile(List([Atom("apply")] + args), use, Normal, env, x, fuel);
            && (|args| < 2 ==> r == Failure(ApplyArity))
            && (|args| >= 2 && r.Success? ==>
                  var a := Args(args[1..], env, x, fuel);
                  var c := r.value.code;
                  && a.Success? && |c| >= |a.value.0| + 4
                  && c[..|a.value.0|] == a.value.0
                  && c[|a.value.0|..|a.value.0| + 3] == [Op(PushNum), Num(|args| - 1), Op(SetArgs)]
                  && c[|c| - 1] == Op(Apply))
  {
    ApplyDispatch(args, use, env, x, fuel);
    ApplyLayout(args, env, x, fuel);
  }

  lemma {:induction false} ApplyDispatch(args: seq<SExp>, use: bool, env: Env, x: Expander, fuel: nat)
    ensures Compile(List([Atom("apply")] + args), use, Normal, env, x, fuel) == ApplyForm(args, env, x, fuel)
  {
    MangleKeeps("apply");
    assert "apply" in SpecialForms;
    SpecialDispatch("apply", args, use, env, x, fuel);
  }

  lemma {:induction false} ApplyLayout(args: seq<SExp>, env: Env, x: Expander, fuel: nat)
    ensures var r := ApplyForm(args, env, x, fuel);
            |args| >= 2 && r.Success? ==>
              var a := Args(args[1..], env, x, fuel);
              var c := r.value.code;
              && a.Success? && |c| >= |a.value.0| + 4
              && c[..|a.value.0|] == a.value.0
              && c[|a.value.0|..|a.value.0| + 3] == [Op(PushNum), Num(|args| - 1), Op(SetArgs)]
              && c[|c| - 1] == Op(Apply)
  {
    var r := ApplyForm(args, env, x, fuel);
    if |args| >= 2 && r.Success? {
      var a := Args(args[1..], env, x, fuel);
      var f := Compile(args[0], true, Normal, a.value.1, x, fuel);
      var c := r.value.code;
      var staging := [Op(PushNum), Num(|args| - 1), Op(SetArgs)];
      assert c == a.value.0 + staging + f.value.code + [Op(Apply)];
      assert c[..|a.value.0|] == a.value.0;
      assert c[|a.value.0|..|a.value.0| + 3] == staging;
    }
  }

  /**
   * A call evaluates its arguments left to right, stages their count with
   * SET_ARGS exactly when there is at least one, evaluates the operator, and
   * ends in CALL.
   */
  lemma {:induction false} CallStaging(es: seq<SExp>, use: bool, env: Env, x: Expander, fuel: nat)
    requires |es| > 0
    requires es[0].List? || (!IsSpecial(es[0].s) && es[0].s !in env.syntax)
    ensures var r := Compile(List(es), use, Normal, env, x, fuel);
            var a := Args(es[1..], env, x, fuel);
            r.Success? ==>
              var c := r.value.code;
              && a.Success? && |c| > |a.value.0| && c[..|a.value.0|] == a.value.0 && c[|c| - 1] == Op(Call)
              && (|es| > 1 ==> |c| >= |a.value.0| + 4
                                && c[|a.value.0|..|a.value.0| + 3] == [Op(PushNum), Num(|es| - 1), Op(SetArgs)])
              && (|es| == 1 ==> var f := Compile(es[0], true, Normal, env, x, fuel);
                                f.Success? && c == f.value.code + [Op(Call)])
  {
    var r := Compile(List(es), use, Normal, env, x, fuel);
    NormalList(es, use, env, x, fuel);
    assert r == CallForm(es, env, x, fuel);
    if r.Success? {
      var a := Args(es[1..], env, x, fuel);
      var f := Compile(es[0], true, Normal, a.value.1, x, fuel);
      var staging: seq<Token> := if |es| > 1 then [Op(PushNum), Num(|es| - 1), Op(SetArgs)] else [];
      var c := r.value.code;
      assert c == a.value.0 + staging + f.value.code + [Op(Call)];
      assert c[..|a.value.0|] == a.value.0;
      if |es| > 1 {
        assert c[|a.value.0|..|a.value.0| + 3] == staging;
      } else {
        assert es[1..] == [];
        assert a.value == ([], env);
      }
    }
  }

  // ---------------------------------------------------------------- splicing

  /**
   * `unquote-splicing` inside a quasiquote needs an operand that compiles
   * list-shaped; it then stands for that list's members.
   */
  lemma {:induction false} SpliceNeedsList(e: SExp, use: bool, env: Env, x: Expander, fuel: nat)
    ensures var o := Compile(e, use, Normal, env, x, fuel);
            var r := Compile(List([Atom("unquote-splicing"), e]), use, Quasi, env, x, fuel);
            && (o.Failure? ==> r == Failure(o.error))
            && (o.Success? && !o.value.shape.Listy? ==> r == Failure(SpliceNotList))
            && (o.Success? && o.value.shape.Listy? ==>
                  r == Success(Piece([Txt("splice")] + Concat(o.value.shape.members), Spliced(o.value.shape.members), o.value.env)))
  {
    QuotedList([Atom("unquote-splicing"), e], use, Quasi, env, x, fuel);
    SpliceForm(e, use, env, x, fuel);
  }

  lemma {:induction false} SpliceForm(e: SExp, use: bool, env: Env, x: Expander, fuel: nat)
    ensures var o := Compile(e, use, Normal, env, x, fuel);
            var r := Quoted([Atom("unquote-splicing"), e], use, Quasi, env, x, fuel);
            && (o.Failure? ==> r == Failure(o.error))
            && (o.Success? && !o.value.shape.Listy? ==> r == Failure(SpliceNotList))
            && (o.Success? && o.value.shape.Listy? ==>
                  r == Success(Piece([Txt("splice")] + Concat(o.value.shape.members), Spliced(o.value.shape.members), o.value.env)))
  {
    var o := Compile(e, use, Normal, env, x, fuel);
    SpliceIsUnquote();
    UnquoteOperand("unquote-splicing", e, use, env, x, fuel);
    if o.Success? {
      UnquoteShape("unquote-splicing", e, o.value, use, env, x, fuel);
    }
  }

  lemma {:induction false} SpliceIsUnquote()
    ensures Contains("unquote-splicing", "unquote")
  {
    assert "unquote-splicing"[..|"unquote"|] == "unquote";
  }

  /** An unquote or splice compiles its operand in normal mode and fails as the operand does. */
  lemma {:induction false} UnquoteOperand(n: string, e: SExp, use: bool, env: Env, x: Expander, fuel: nat)
    requires Contains(n, "unquote")
    ensures var o := Compile(e, use, Normal, env, x, fuel);
            o.Failure? ==> Quoted([Atom(n), e], use, Quasi, env, x, fuel) == Failure(o.error)
  {
    var es := [Atom(n), e];
    assert es[0] == Atom(n) && es[1..] == [e];
    assert Arg(es[1..], 0) == Some(e);
  }

  /**
   * With a compiled operand, a splice is kept when list-shaped and rejected
   * otherwise, and a plain unquote is the operand's code.
   */
  lemma {:induction false} UnquoteShape(n: string, e: SExp, p: Piece, use: bool, env: Env, x: Expander, fuel: nat)
    requires Contains(n, "unquote")
    requires Compile(e, use, Normal, env, x, fuel) == Success(p)
    ensures var r := Quoted([Atom(n), e], use, Quasi, env, x, fuel);
            && (n != "unquote-splicing" ==> r == Success(p))
            && (n == "unquote-splicing" && !p.shape.Listy? ==> r == Failure(SpliceNotList))
            && (n == "unquote-splicing" && p.shape.Listy? ==>
                  r == Success(Piece([Txt("splice")] + Concat(p.shape.members), Spliced(p.shape.members), p.env)))
  {
    var es := [Atom(n), e];
    assert es[0] == Atom(n) && es[1..] == [e];
    assert Arg(es[1..], 0) == Some(e);
  }

  /** Compiling members of `a + b` is compiling those of `a`, then those of `b` with the tables `a` left. */
  lemma {:induction false} MembersAppend(a: seq<SExp>, b: seq<SExp>, mode: Mode, env: Env, x: Expander, fuel: nat)
    ensures var ma := Members(a, mode, env, x, fuel);
            var r := Members(a + b, mode, env, x, fuel);
            && (ma.Failure? ==> r == Failure(ma.error))
            && (ma.Success? ==>
                  var mb := Members(b, mode, ma.value.1, x, fuel);
                  && (mb.Failure? ==> r == Failure(mb.error))
                  && (mb.Success? ==> r == Success((ma.value.0 + mb.value.0, mb.value.1))))
    decreases |a|
  {
    if |a| == 0 {
      assert a + b == b;
      assert Members(a, mode, env, x, fuel) == Success(([], env));
      var mb := Members(b, mode, env, x, fuel);
      if mb.Success? {
        assert [] + mb.value.0 == mb.value.0;
      }
    } else {
      var ab := a + b;
      assert ab[0] == a[0] && ab[1..] == a[1..] + b;
      MembersCons(a, mode, env, x, fuel);
      MembersCons(ab, mode, env, x, fuel);
      var p := Compile(a[0], true, mode, env, x, fuel);
      if p.Success? {
        var mine := if p.value.shape.Spliced? then p.value.shape.members else [p.value.code];
        MembersAppend(a[1..], b, mode, p.value.env, x, fuel);
        var ra := Members(a[1..], mode, p.value.env, x, fuel);
        if ra.Success? {
          var mb := Members(b, mode, ra.value.1, x, fuel);
          if mb.Success? {
            AppendAssoc(mine, ra.value.0, mb.value.0);
          }
        }
      }
    }
  }

  lemma {:induction false} AppendAssoc<T>(u: seq<T>, v: seq<T>, w: seq<T>)
    ensures u + (v + w) == (u + v) + w
  {
  }

  /** Members of a non-empty list: the first element's, then the rest's with the tables it left. */
  lemma {:induction false} MembersCons(es: seq<SExp>, mode: Mode, env: Env, x: Expander, fuel: nat)
    requires |es| > 0
    ensures var p := Compile(es[0], true, mode, env, x, fuel);
            var r := Members(es, mode, env, x, fuel);
            && (p.Failure? ==> r == Failure(p.error))
            && (p.Success? ==>
                  var rest := Members(es[1..], mode, p.value.env, x, fuel);
                  var mine := if p.value.shape.Spliced? then p.value.shape.members else [p.value.code];
                  && (rest.Failure? ==> r == Failure(rest.error))
                  && (rest.Success? ==> r == Success((mine + rest.value.0, rest.value.1))))
  {
  }

  /** Under a quote a list element never splices: it compiles to one member. */
  lemma {:induction false} QuoteNotSpliced(e: SExp, env: Env, x: Expander, fuel: nat)
    ensures !Compile(e, true, Quote, env, x, fuel).value.shape.Spliced?
  {
    if e.List? && |e.items| > 0 {
      var m := Members(e.items, Quote, env, x, fuel);
      QuotedList(e.items, true, Quote, env, x, fuel);
      assert Compile(e, true, Quote, env, x, fuel) == Success(ListPiece(m.value.0, true, m.value.1));
    }
  }

  /** Quoted list elements never splice: each is one member. */
  lemma {:induction false} QuoteWidth(es: seq<SExp>, env: Env, x: Expander, fuel: nat)
    ensures Members(es, Quote, env, x, fuel).value.1 == env
    ensures |Members(es, Quote, env, x, fuel).value.0| == |es|
    decreases |es|
  {
    if |es| > 0 {
      QuoteWidth(es[1..], env, x, fuel);
      QuoteNotSpliced(es[0], env, x, fuel);
      var p := Compile(es[0], true, Quote, env, x, fuel);
      var rest := Members(es[1..], Quote, env, x, fuel);
      assert Members(es, Quote, env, x, fuel) == Success(([p.value.code] + rest.value.0, rest.value.1));
    }
  }

  /** Atoms listed with `list` contribute one member each, their literal code, and change no table. */
  lemma {:induction false} AtomMembers(items: seq<SExp>, env: Env, x: Expander, fuel: nat)
    requires AllAtoms(items)
    ensures Members(items, Normal, env, x, fuel).Success?
    ensures Members(items, Normal, env, x, fuel).value.1 == env
    ensures |Members(items, Normal, env, x, fuel).value.0| == |items|
    decreases |items|
  {
    if |items| > 0 {
      AtomMembers(items[1..], env, x, fuel);
    }
  }

  lemma {:induction false} ListIsSpecial()
    ensures IsSpecial("list") && Mangle("list") == "list"
  {
    MangleKeeps("list");
  }

  /** A used `(list a ...)` of atoms is list-shaped, with one member per atom. */
  lemma {:induction false} ListOfAtoms(items: seq<SExp>, env: Env, x: Expander, fuel: nat)
    requires AllAtoms(items)
    ensures var ms := Members(items, Normal, env, x, fuel);
            && ms.Success? && |ms.value.0| == |items|
            && Compile(List([Atom("list")] + items), true, Normal, env, x, fuel) == Success(ListPiece(ms.value.0, true, env))
  {
    AtomMembers(items, env, x, fuel);
    var ms := Members(items, Normal, env, x, fuel);
    assert Special("list", items, true, env, x, fuel) == Success(ListPiece(ms.value.0, true, env)) by {
      assert "list" in SpecialForms;
    }
    ListIsSpecial();
    SpecialDispatch("list", items, true, env, x, fuel);
  }

  /** A splice of a list of atoms, alone in a quasiquoted list, contributes that list's members. */
  lemma {:induction false} SpliceMembers(items: seq<SExp>, env: Env, x: Expander, fuel: nat)
    requires AllAtoms(items)
    ensures var sp := List([Atom("unquote-splicing"), List([Atom("list")] + items)]);
            var ms := Members(items, Normal, env, x, fuel);
            && ms.Success?
            && Members([sp], Quasi, env, x, fuel) == Success((ms.value.0, env))
  {
    var lst := List([Atom("list")] + items);
    var sp := List([Atom("unquote-splicing"), lst]);
    ListOfAtoms(items, env, x, fuel);
    var ms := Members(items, Normal, env, x, fuel).value.0;
    SpliceNeedsList(lst, true, env, x, fuel);
    assert Compile(sp, true, Quasi, env, x, fuel) == Success(Piece([Txt("splice")] + Concat(ms), Spliced(ms), env));
    assert [sp][0] == sp && [sp][1..] == [];
    assert Members([], Quasi, env, x, fuel) == Success(([], env));
    assert ms + [] == ms;
  }

  /** Unquote-free elements of a quasiquoted list are one member each and change no table. */
  lemma {:induction false} QuasiWidth(es: seq<SExp>, env: Env, x: Expander, fuel: nat)
    requires forall k :: 0 <= k < |es| ==> NoUnquote(es[k])
    ensures var m := Members(es, Quasi, env, x, fuel);
            m.Success? && m.value.1 == env && |m.value.0| == |es|
  {
    QuasiMembers(es, env, x, fuel);
    QuoteWidth(es, env, x, fuel);
  }

  /**
   * A spliced `(list ...)` of atoms between unquote-free elements of a
   * quasiquoted list: the list counts every spliced member, not the splice
   * as one element.
   */
  lemma {:induction false} SpliceCount(pre: seq<SExp>, items: seq<SExp>, post: seq<SExp>, env: Env, x: Expander, fuel: nat)
    requires forall k :: 0 <= k < |pre| ==> NoUnquote(pre[k])
    requires forall k :: 0 <= k < |post| ==> NoUnquote(post[k])
    requires AllAtoms(items)
    ensures var sp := List([Atom("unquote-splicing"), List([Atom("list")] + items)]);
            var r := Compile(List(pre + [sp] + post), true, Quasi, env, x, fuel);
            && r.Success? && r.value.shape.Listy?
            && |r.value.shape.members| == |pre| + |items| + |post|
            && |r.value.code| >= 2 && r.value.code[|r.value.code| - 2] == Num(|pre| + |items| + |post|)
  {
    var sp := List([Atom("unquote-splicing"), List([Atom("list")] + items)]);
    var es := pre + [sp] + post;
    SplicedMembers(pre, items, post, env, x, fuel);
    var all := Members(es, Quasi, env, x, fuel).value.0;
    // the whole list is a quasiquoted list, not an unquote
    assert !(es[0].Atom? && Contains(es[0].s, "unquote")) by {
      if |pre| > 0 {
        assert es[0] == pre[0];
        assert NoUnquote(es[0]);
      } else {
        assert es[0] == sp;
      }
    }
    assert Compile(List(es), true, Quasi, env, x, fuel) == Success(ListPiece(all, true, env)) by {
      QuotedList(es, true, Quasi, env, x, fuel);
    }
  }

  /** The members of a quasiquoted list with one splice: the splice contributes one member per item. */
  lemma {:induction false} SplicedMembers(pre: seq<SExp>, items: seq<SExp>, post: seq<SExp>, env: Env, x: Expander, fuel: nat)
    requires forall k :: 0 <= k < |pre| ==> NoUnquote(pre[k])
    requires forall k :: 0 <= k < |post| ==> NoUnquote(post[k])
    requires AllAtoms(items)
    ensures var sp := List([Atom("unquote-splicing"), List([Atom("list")] + items)]);
            var m := Members(pre + [sp] + post, Quasi, env, x, fuel);
            && m.Success? && m.value.1 == env
            && |m.value.0| == |pre| + |items| + |post|
  {
    var sp := List([Atom("unquote-splicing"), List([Atom("list")] + items)]);
    ListOfAtoms(items, env, x, fuel);
    SpliceMembers(items, env, x, fuel);
    var ms := Members(items, Normal, env, x, fuel).value.0;
    QuasiWidth(pre, env, x, fuel);
    QuasiWidth(post, env, x, fuel);
    var mpre := Members(pre, Quasi, env, x, fuel).value.0;
    var mpost := Members(post, Quasi, env, x, fuel).value.0;
    MembersAppend(pre, [sp], Quasi, env, x, fuel);
    MembersAppend(pre + [sp], post, Quasi, env, x, fuel);
    assert Members(pre + [sp] + post, Quasi, env, x, fuel) == Success((mpre + ms + mpost, env));
  }

  // ---------------------------------------------------------------- macros

  /**
   * A name in the macro table that is not a special form is expanded by the
   * transformer and the expansion compiled in place, keeping the use flag of
   * the original form; failing expansions and exhausted fuel are errors.
   */
  lemma {:induction false} MacroUse(es: seq<SExp>, use: bool, env: Env, x: Expander, fuel: nat)
    requires |es| > 0 && es[0].Atom? && !IsSpecial(es[0].s) && es[0].s in env.syntax
    ensures var r := Compile(List(es), use, Normal, env, x, fuel);
            var n := es[0].s;
            && (fuel == 0 ==> r == Failure(OutOfFuel))
            && (fuel > 0 && x(env.syntax[n], List(es)).None? ==> r == Failure(ExpansionFailed(n)))
            && (fuel > 0 && x(env.syntax[n], List(es)).Some? ==>
                  var p := Compile(x(env.syntax[n], List(es)).value, true, Normal, env, x, fuel - 1);
                  && (r.Success? <==> p.Success?)
                  && (r.Success? ==> r.value.code == p.value.code + PopMaybe(use) && r.value.env == p.value.env))
  {
    NormalList(es, use, env, x, fuel);
  }

  /**
   * `(define-syntax name (syntax-rules literals rule...))` emits nothing and
   * records the transformer the rules rewrite to, or fails when a rule is not
   * a `(pattern template)` pair.
   */
  lemma {:induction false} DefineSyntaxRecords(n: string, lits: SExp, rules: seq<SExp>, use: bool, env: Env, x: Expander, fuel: nat)
    ensures var form := List([Atom("define-syntax"), Atom(n), List([Atom("syntax-rules"), lits] + rules)]);
            var r := Compile(form, use, Normal, env, x, fuel);
            var tr := SyntaxRules([lits] + rules);
            && (tr.None? ==> r == Failure(BadRules))
            && (tr.Some? ==> r == Success(Piece([], Plain, env.(syntax := env.syntax[n := tr.value]))))
  {
    var ts := [Atom("syntax-rules"), lits] + rules;
    var args := [Atom(n), List(ts)];
    var form := List([Atom("define-syntax"), Atom(n), List(ts)]);
    var r := Compile(form, use, Normal, env, x, fuel);
    assert r == DefineSyntax(args, env) by {
      DefineSyntaxIsSpecial();
      assert Special("define_syntax", args, use, env, x, fuel) == DefineSyntax(args, env) by {
        assert "define_syntax" in SpecialForms;
      }
      SpecialDispatch("define-syntax", args, use, env, x, fuel);
      assert [Atom("define-syntax")] + args == [Atom("define-syntax"), Atom(n), List(ts)];
    }
    assert Arg(args, 0) == Some(Atom(n)) && Arg(args, 1) == Some(List(ts));
    assert ts[1..] == [lits] + rules;
  }

  lemma {:induction false} DefineSyntaxIsSpecial()
    ensures IsSpecial("define-syntax") && Mangle("define-syntax") == "define_syntax"
  {
    DefineSyntaxName();
    assert "define_syntax" in SpecialForms;
  }

  // ---------------------------------------------------------------- bodies and programs

  /** A reference reading of a body prefix: every form compiled with its value unused. */
  function Statements(es: seq<SExp>, env: Env, x: Expander, fuel: nat): Result<(seq<Token>, Env), CompileError>
    decreases |es|
  {
    if |es| == 0 then Success(([], env))
    else
      var p :- Compile(es[0], false, Normal, env, x, fuel);
      var rest :- Statements(es[1..], p.env, x, fuel);
      Success((p.code + rest.0, rest.1))
  }

  /** After statements that produced `s`, the last form with its value kept. */
  function Finish(s: (seq<Token>, Env), e: SExp, x: Expander, fuel: nat): Result<(seq<Token>, Env), CompileError> {
    var p :- Compile(e, true, Normal, s.1, x, fuel);
    Success((s.0 + p.code, p.env))
  }

  /** The reading of a body as statements followed by one form whose value is kept. */
  function StatementsThen(pre: seq<SExp>, e: SExp, env: Env, x: Expander, fuel: nat): Result<(seq<Token>, Env), CompileError> {
    var s :- Statements(pre, env, x, fuel);
    Finish(s, e, x, fuel)
  }

  /** In a body only the last form keeps its value: the rest are compiled as statements. */
  lemma {:induction false} BodySplit(pre: seq<SExp>, e: SExp, env: Env, x: Expander, fuel: nat)
    ensures Body(pre + [e], env, x, fuel) == StatementsThen(pre, e, env, x, fuel)
    decreases |pre|
  {
    var es := pre + [e];
    if |pre| == 0 {
      assert es == [e];
      assert Statements(pre, env, x, fuel) == Success(([], env));
      BodyOfOne(e, env, x, fuel);
    } else {
      var p := Compile(pre[0], false, Normal, env, x, fuel);
      if p.Failure? {
        assert Statements(pre, env, x, fuel) == Failure(p.error);
        assert Body(es, env, x, fuel) == Failure(p.error) by {
          assert es[0] == pre[0] && |es| > 1;
        }
      } else {
        BodySplit(pre[1..], e, p.value.env, x, fuel);
        BodyFront(pre, e, env, x, fuel);
        ThenFront(pre, e, env, x, fuel);
      }
    }
  }

  lemma {:induction false} ThenFront(pre: seq<SExp>, e: SExp, env: Env, x: Expander, fuel: nat)
    requires |pre| > 0
    requires Compile(pre[0], false, Normal, env, x, fuel).Success?
    ensures var p := Compile(pre[0], false, Normal, env, x, fuel);
            var a := StatementsThen(pre[1..], e, p.value.env, x, fuel);
            StatementsThen(pre, e, env, x, fuel) ==
              (if a.Failure? then Failure(a.error) else Success((p.value.code + a.value.0, a.value.1)))
  {
    var p := Compile(pre[0], false, Normal, env, x, fuel);
    var rs := Statements(pre[1..], p.value.env, x, fuel);
    StatementsFront(pre, env, x, fuel);
    if rs.Failure? {
      ThenFrontFails(pre, e, env, x, fuel);
    } else {
      ThenFrontRuns(pre, e, env, x, fuel);
    }
  }

  lemma {:induction false} ThenFrontFails(pre: seq<SExp>, e: SExp, env: Env, x: Expander, fuel: nat)
    requires |pre| > 0
    requires Compile(pre[0], false, Normal, env, x, fuel).Success?
    requires Statements(pre[1..], Compile(pre[0], false, Normal, env, x, fuel).value.env, x, fuel).Failure?
    ensures var p := Compile(pre[0], false, Normal, env, x, fuel);
            var rs := Statements(pre[1..], p.value.env, x, fuel);
            && StatementsThen(pre[1..], e, p.value.env, x, fuel) == Failure(rs.error)
            && StatementsThen(pre, e, env, x, fuel) == Failure(rs.error)
  {
    StatementsFront(pre, env, x, fuel);
  }

  lemma {:induction false} ThenFrontRuns(pre: seq<SExp>, e: SExp, env: Env, x: Expander, fuel: nat)
    requires |pre| > 0
    requires Compile(pre[0], false, Normal, env, x, fuel).Success?
    requires Statements(pre[1..], Compile(pre[0], false, Normal, env, x, fuel).value.env, x, fuel).Success?
    ensures var p := Compile(pre[0], false, Normal, env, x, fuel);
            var a := StatementsThen(pre[1..], e, p.value.env, x, fuel);
            StatementsThen(pre, e, env, x, fuel) ==
              (if a.Failure? then Failure(a.error) else Success((p.value.code + a.value.0, a.value.1)))
  {
    var p := Compile(pre[0], false, Normal, env, x, fuel);
    var rs := Statements(pre[1..], p.value.env, x, fuel);
    StatementsFront(pre, env, x, fuel);
    FinishPrefix(rs.value, p.value.code, e, x, fuel);
  }

  /** Code in front of the statements stays in front of the last form's. */
  lemma {:induction false} FinishPrefix(s: (seq<Token>, Env), c: seq<Token>, e: SExp, x: Expander, fuel: nat)
    ensures var f := Finish(s, e, x, fuel);
            Finish((c + s.0, s.1), e, x, fuel) == (if f.Failure? then Failure(f.error) else Success((c + f.value.0, f.value.1)))
  {
    var q := Compile(e, true, Normal, s.1, x, fuel);
    if q.Failure? {
      assert Finish(s, e, x, fuel) == Failure(q.error);
      assert Finish((c + s.0, s.1), e, x, fuel) == Failure(q.error);
    } else {
      assert Finish(s, e, x, fuel) == Success((s.0 + q.value.code, q.value.env));
      assert Finish((c + s.0, s.1), e, x, fuel) == Success(((c + s.0) + q.value.code, q.value.env));
      assert c + (s.0 + q.value.code) == (c + s.0) + q.value.code;
    }
  }

  lemma {:induction false} BodyFront(pre: seq<SExp>, e: SExp, env: Env, x: Expander, fuel: nat)
    requires |pre| > 0
    requires Compile(pre[0], false, Normal, env, x, fuel).Success?
    ensures var p := Compile(pre[0], false, Normal, env, x, fuel);
            var rb := Body(pre[1..] + [e], p.value.env, x, fuel);
            Body(pre + [e], env, x, fuel) ==
              (if rb.Failure? then Failure(rb.error) else Success((p.value.code + rb.value.0, rb.value.1)))
  {
    var es := pre + [e];
    assert es[0] == pre[0] && es[1..] == pre[1..] + [e] && |es| > 1;
  }

  lemma {:induction false} StatementsFront(pre: seq<SExp>, env: Env, x: Expander, fuel: nat)
    requires |pre| > 0
    requires Compile(pre[0], false, Normal, env, x, fuel).Success?
    ensures var p := Compile(pre[0], false, Normal, env, x, fuel);
            var rs := Statements(pre[1..], p.value.env, x, fuel);
            Statements(pre, env, x, fuel) ==
              (if rs.Failure? then Failure(rs.error) else Success((p.value.code + rs.value.0, rs.value.1)))
  {
  }

  /** A body of one form is that form with its value kept. */
  lemma {:induction false} BodyOfOne(e: SExp, env: Env, x: Expander, fuel: nat)
    ensures var p := Compile(e, true, Normal, env, x, fuel);
            && (p.Failure? ==> Body([e], env, x, fuel) == Failure(p.error))
            && (p.Success? ==> Body([e], env, x, fuel) == Success(([] + p.value.code, p.value.env)))
  {
    assert [e][0] == e && [e][1..] == [];
    var p := Compile(e, true, Normal, env, x, fuel);
    if p.Success? {
      assert Body([], p.value.env, x, fuel) == Success(([], p.value.env));
      assert p.value.code + [] == [] + p.value.code;
    }
  }
}
