/**
 * The compiler: a translation from S-expressions to the flat token sequence
 * the machine loads.
 *
 * The source builds nested arrays and flattens them only at the end; two of
 * its decisions look at a piece before flattening (whether a result starts
 * with the marker `"splice"`, and whether its last non-nil element is
 * PUSH_LIST). `Shape` keeps exactly that much of the nesting. The table of
 * local names and the table of macros are shared, mutable hashes in the
 * source; here they are threaded through the recursion in the order the
 * source evaluates its sub-forms.
 */
module Compiler {
  import opened Wrappers
  import opened Bytecode
  import opened SExps
  import opened Macros

  /** Whether atoms are variables (`Normal`) or data, and whether `unquote` is live. */
  datatype Mode = Normal | Quote | Quasi

  /** The names `define` has bound in the current body, and the macros defined so far. */
  datatype Env = Env(locals: set<string>, syntax: map<string, SExp>)

  /**
   * What the unflattened piece looks like at its ends: list-shaped (its last
   * non-nil element is PUSH_LIST, its first the member codes), a splice (its
   * first element is the marker, its last what gets spliced), or neither.
   */
  datatype Shape = Plain | Listy(members: seq<seq<Token>>) | Spliced(members: seq<seq<Token>>)

  /** A compiled form: its flattened code, its shape, and the tables afterwards. */
  datatype Piece = Piece(code: seq<Token>, shape: Shape, env: Env)

  datatype CompileError =
    | ConsArity
    | ApplyArity
    | SpliceNotList
    | ExpansionFailed(name: string)
    | BadParams
    | BadName
    | BadRules
    | BadTransformer
    | OutOfFuel

  /**
   * Macro expansion: given the transformer lambda and the whole form, the
   * form it expands to. The source compiles the call and runs it on a fresh
   * machine; here that is a parameter, and `None` stands for any failure.
   */
  type Expander = (SExp, SExp) -> Option<SExp>

  /** Neither table grew smaller: no local and no macro is ever forgotten. */
  predicate Keeps(env: Env, env': Env) {
    env.locals <= env'.locals && env.syntax.Keys <= env'.syntax.Keys
  }

  function PopMaybe(use: bool): seq<Token> {
    if use then [] else [Op(Pop)]
  }

  function Concat(css: seq<seq<Token>>): (r: seq<Token>)
    decreases |css|
  {
    if |css| == 0 then [] else css[0] + Concat(css[1..])
  }

  // ---------------------------------------------------------------- literals

  datatype LitKind = Variable | TrueLit | FalseLit | CharLit(c: char) | StrLit(body: string) | NoLit | NumLit

  /** The character a `#\name` literal denotes: two names are spelled out, else the first character. */
  function CharName(r: string): char
    requires |r| > 0
  {
    if r == "space" then ' ' else if r == "newline" then '\n' else r[0]
  }

  /** Classifies a trimmed atom text, trying the cases in the source's order. */
  function Classify(t: string): (k: LitKind)
    ensures k == Variable <==> |t| > 0 && IsLower(t[0])
    ensures k.CharLit? ==> |t| >= 3 && t[..2] == "#\\" && '\n' !in t[2..] && k.c == CharName(t[2..])
    ensures k.StrLit? ==> |t| >= 2 && t == "\"" + k.body + "\"" && '\n' !in k.body
    ensures k == NoLit <==> t == ""
  {
    if |t| > 0 && IsLower(t[0]) then Variable
    else if t == "#t" then TrueLit
    else if t == "#f" then FalseLit
    else if |t| >= 3 && t[0] == '#' && t[1] == '\\' && '\n' !in t[2..] then CharLit(CharName(t[2..]))
    else if |t| >= 2 && t[0] == '"' && t[|t| - 1] == '"' && '\n' !in t[1..|t| - 1] then
      assert t == "\"" + t[1..|t| - 1] + "\"";
      StrLit(t[1..|t| - 1])
    else if t == "" then NoLit
    else NumLit
  }

  /** A variable reference: PUSH_LOCAL when a `define` of this body bound the name, else PUSH_REMOTE. */
  function PushVar(name: string, env: Env): (r: seq<Token>)
    ensures |r| == 2 && r[1] == Txt(name)
    ensures r[0] == Op(PushLocal) <==> name in env.locals
    ensures r[0] == Op(PushRemote) <==> name !in env.locals
  {
    [Op(if name in env.locals then PushLocal else PushRemote), Txt(name)]
  }

  /** An atom: variables become references (or, under a quote, atoms); the rest literal values. */
  function Literal(text: string, use: bool, mode: Mode, env: Env): seq<Token> {
    var t := Strip(text);
    LiteralCode(Classify(t), t, use, mode, env)
  }

  /** The code of a stripped atom `t` of kind `k`. */
  function LiteralCode(k: LitKind, t: string, use: bool, mode: Mode, env: Env): seq<Token> {
    match k
    case Variable => if mode == Normal then PushVar(t, env) + PopMaybe(use) else [Op(PushAtom), Txt(t)]
    case TrueLit => [Op(PushTrue)] + PopMaybe(use)
    case FalseLit => [Op(PushFalse)] + PopMaybe(use)
    case CharLit(c) => [Op(PushChar), Txt([c])] + PopMaybe(use)
    case StrLit(body) => [Op(PushStr), Txt(body)]
    case NoLit => []
    case NumLit => [Op(PushNum), Txt(t)] + PopMaybe(use)
  }

  // ---------------------------------------------------------------- fixed layouts

  /** A list of `members`: their code, the count, PUSH_LIST. List-shaped only when its value is used. */
  function ListPiece(members: seq<seq<Token>>, use: bool, env: Env): (p: Piece)
    ensures p.env == env
  {
    Piece(Concat(members) + [Op(PushNum), Num(|members|), Op(PushList)] + PopMaybe(use),
          if use then Listy(members) else Plain, env)
  }

  /** The relative offsets of `if`: skip the true branch and the JUMP, then skip the false branch. */
  function IfCode(c: seq<Token>, t: seq<Token>, f: seq<Token>): seq<Token> {
    c + [Op(JumpIfFalse), Num(|t| + 3)] + t + [Op(Jump), Num(|f| + 1)] + f
  }

  /** The shape of a macro use: the expansion's code followed by the POP or nil of the use. */
  function MacroShape(s: Shape, use: bool): Shape {
    match s
    case Plain => Plain
    case Listy(ms) => if use then Listy(ms) else Plain
    case Spliced(_) => Spliced([PopMaybe(use)])
  }

  /** The atoms of a tree in order: what flattening the source's nested arrays leaves. */
  function AtomTexts(e: SExp): seq<Token>
    decreases e
  {
    match e
    case Atom(s) => [Txt(s)]
    case List(es) => AtomTextsAll(es)
  }

  function AtomTextsAll(es: seq<SExp>): seq<Token>
    decreases es
  {
    if |es| == 0 then [] else AtomTexts(es[0]) + AtomTextsAll(es[1..])
  }

  // ---------------------------------------------------------------- parameters

  predicate IsDot(e: SExp) {
    e == Atom(".")
  }

  /**
   * `slice_when`: cuts the list between two neighbours whenever either of
   * them is `.`, so every `.` ends up in a chunk of its own.
   */
  function SliceAtDots(ps: seq<SExp>): (cs: seq<seq<SExp>>)
    ensures |ps| == 0 <==> |cs| == 0
    ensures forall k :: 0 <= k < |cs| ==> |cs[k]| > 0
    ensures |ps| > 0 ==> cs[0][0] == ps[0]
    decreases |ps|
  {
    if |ps| == 0 then []
    else if |ps| == 1 then [ps]
    else
      var cs := SliceAtDots(ps[1..]);
      if IsDot(ps[0]) || IsDot(ps[1]) then [[ps[0]]] + cs
      else [[ps[0]] + cs[0]] + cs[1..]
  }

  predicate AllAtoms(ps: seq<SExp>) {
    forall k :: 0 <= k < |ps| ==> ps[k].Atom?
  }

  function Names(ps: seq<SExp>): (r: set<string>)
    requires AllAtoms(ps)
    ensures forall n :: n in r <==> exists k :: 0 <= k < |ps| && ps[k].s == n
    decreases |ps|
  {
    if |ps| == 0 then {}
    else
      var r := {ps[0].s} + Names(ps[1..]);
      assert forall k :: 1 <= k < |ps| ==> ps[1..][k - 1] == ps[k];
      r
  }

  /** `push_arg` for each name in order: take the next argument, bind it. */
  function FixedParams(ps: seq<SExp>): (r: seq<Token>)
    requires AllAtoms(ps)
    ensures |r| == 3 * |ps|
    ensures forall k :: 0 <= k < |ps| ==> r[3 * k..3 * k + 3] == [Op(PushArg), Op(SetLocal), Txt(ps[k].s)]
    decreases |ps|
  {
    if |ps| == 0 then []
    else
      var rest := FixedParams(ps[1..]);
      var r := [Op(PushArg), Op(SetLocal), Txt(ps[0].s)] + rest;
      assert forall k :: 1 <= k < |ps| ==> r[3 * k..3 * k + 3] == rest[3 * (k - 1)..3 * (k - 1) + 3];
      r
  }

  /** The code that binds a lambda's parameters, and the names it binds. */
  datatype Params = Params(code: seq<Token>, locals: set<string>)

  /**
   * The three parameter shapes: a bare name takes all the arguments as a
   * list; a list without `.` binds one argument per name; a dotted list
   * binds the names before the dot one by one and the first name after it to
   * the remaining arguments, while every name after the dot becomes local.
   */
  function LambdaParams(p: Option<SExp>): (r: Result<Params, CompileError>)
    ensures p.None? ==> r == Failure(BadParams)
    ensures (p.Some? && p.value.Atom?) ==>
              r == Success(Params([Op(PushArgs), Op(SetLocal), Txt(p.value.s)], {p.value.s}))
    ensures (p.Some? && p.value.List? && Atom(".") !in p.value.items) ==>
              (r.Success? <==> AllAtoms(p.value.items))
              && (r.Success? ==> r.value == Params(FixedParams(p.value.items), Names(p.value.items)))
  {
    match p
    case None => Failure(BadParams)
    case Some(Atom(s)) => Success(Params([Op(PushArgs), Op(SetLocal), Txt(s)], {s}))
    case Some(List(ps)) =>
      if Atom(".") in ps then
        var cs := SliceAtDots(ps);
        if |cs| < 3 || !AllAtoms(cs[0]) || !AllAtoms(cs[2]) then Failure(BadParams)
        else
          Success(Params(FixedParams(cs[0]) + [Op(PushArgs), Op(SetLocal), Txt(cs[2][0].s)],
                         Names(cs[0]) + Names(cs[2])))
      else if AllAtoms(ps) then Success(Params(FixedParams(ps), Names(ps)))
      else Failure(BadParams)
  }

  // ---------------------------------------------------------------- the recursive compiler

  /** One form; `use` says whether its value stays on the stack. */
  function Compile(e: SExp, use: bool, mode: Mode, env: Env, x: Expander, fuel: nat): (r: Result<Piece, CompileError>)
    ensures r.Success? ==> Keeps(env, r.value.env)
    ensures mode == Quote ==> r.Success? && r.value.env == env
    decreases fuel, Size(e), 1
  {
    match e
    case Atom(s) => Success(Piece(Literal(s, use, mode, env), Plain, env))
    case List(es) =>
      if |es| == 0 then Success(Piece([], Plain, env))
      else Form(es, use, mode, env, x, fuel)
  }

  /** A destructured argument that may be missing; a missing one compiles to nothing. */
  function CompileOpt(o: Option<SExp>, use: bool, mode: Mode, env: Env, x: Expander, fuel: nat)
    : (r: Result<Piece, CompileError>)
    ensures o.None? ==> r == Success(Piece([], Plain, env))
    ensures r.Success? ==> Keeps(env, r.value.env)
    ensures mode == Quote ==> r.Success? && r.value.env == env
    decreases fuel, Rank(o), 2
  {
    match o
    case None => Success(Piece([], Plain, env))
    case Some(e) => Compile(e, use, mode, env, x, fuel)
  }

  /** A non-empty list form: quoted data and splices outside normal mode, otherwise a dispatch on its head. */
  function Form(es: seq<SExp>, use: bool, mode: Mode, env: Env, x: Expander, fuel: nat)
    : (r: Result<Piece, CompileError>)
    requires |es| > 0
    ensures r.Success? ==> Keeps(env, r.value.env)
    ensures mode == Quote ==> r.Success? && r.value.env == env
    decreases fuel, SizeAll(es), 6
  {
    if mode != Normal then Quoted(es, use, mode, env, x, fuel)
    else Dispatch(es, use, env, x, fuel)
  }

  /** A list under quote or quasiquote: an unquote or splice when quasi, otherwise a list of its members. */
  function Quoted(es: seq<SExp>, use: bool, mode: Mode, env: Env, x: Expander, fuel: nat)
    : (r: Result<Piece, CompileError>)
    requires |es| > 0 && mode != Normal
    ensures r.Success? ==> Keeps(env, r.value.env)
    ensures mode == Quote ==> r.Success? && r.value.env == env
    decreases fuel, SizeAll(es), 5
  {
    SizeElement(es, 0);
    var name := es[0];
    if mode == Quasi && name.Atom? && Contains(name.s, "unquote") then
      var o :- CompileOpt(Arg(es[1..], 0), use, Normal, env, x, fuel);
      if name.s == "unquote-splicing" then
        if o.shape.Listy? then
          Success(Piece([Txt("splice")] + Concat(o.shape.members), Spliced(o.shape.members), o.env))
        else Failure(SpliceNotList)
      else Success(o)
    else
      var m :- Members(es, mode, env, x, fuel);
      Success(ListPiece(m.0, use, m.1))
  }

  /** A list in normal mode: a call when its head is a list, a special form, a macro use, or a call. */
  function Dispatch(es: seq<SExp>, use: bool, env: Env, x: Expander, fuel: nat)
    : (r: Result<Piece, CompileError>)
    requires |es| > 0
    ensures r.Success? ==> Keeps(env, r.value.env)
    decreases fuel, SizeAll(es), 5
  {
    SizeElement(es, 0);
    var name := es[0];
    var args := es[1..];
    if name.List? then CallForm(es, env, x, fuel)
    else if IsSpecial(name.s) then Special(Mangle(name.s), args, use, env, x, fuel)
    else if name.s in env.syntax then
      if fuel == 0 then Failure(OutOfFuel)
      else match x(env.syntax[name.s], List(es))
        case None => Failure(ExpansionFailed(name.s))
        case Some(v) =>
          var p :- Compile(v, true, Normal, env, x, fuel - 1);
          Success(Piece(p.code + PopMaybe(use), MacroShape(p.shape, use), p.env))
    else CallForm(es, env, x, fuel)
  }

  /** A generic call: arguments left to right, their count staged when there are any, the operator, CALL. */
  function CallForm(es: seq<SExp>, env: Env, x: Expander, fuel: nat): (r: Result<Piece, CompileError>)
    requires |es| > 0
    ensures r.Success? ==> Keeps(env, r.value.env)
    decreases fuel, SizeAll(es), 3
  {
    SizeElement(es, 0);
    var a :- Args(es[1..], env, x, fuel);
    var f :- Compile(es[0], true, Normal, a.1, x, fuel);
    var staging := if |es| > 1 then [Op(PushNum), Num(|es| - 1), Op(SetArgs)] else [];
    Success(Piece(a.0 + staging + f.code + [Op(Call)], Plain, f.env))
  }

  /** Arguments compiled left to right, each keeping its value. */
  function Args(es: seq<SExp>, env: Env, x: Expander, fuel: nat): (r: Result<(seq<Token>, Env), CompileError>)
    ensures r.Success? ==> Keeps(env, r.value.1)
    decreases fuel, SizeAll(es), 2
  {
    if |es| == 0 then Success(([], env))
    else
      SizeElement(es, 0);
      var p :- Compile(es[0], true, Normal, env, x, fuel);
      var rest :- Args(es[1..], p.env, x, fuel);
      Success((p.code + rest.0, rest.1))
  }

  /** A body: every form in order, only the last keeping its value. */
  function Body(es: seq<SExp>, env: Env, x: Expander, fuel: nat): (r: Result<(seq<Token>, Env), CompileError>)
    ensures r.Success? ==> Keeps(env, r.value.1)
    decreases fuel, SizeAll(es), 2
  {
    if |es| == 0 then Success(([], env))
    else
      SizeElement(es, 0);
      var p :- Compile(es[0], |es| == 1, Normal, env, x, fuel);
      var rest :- Body(es[1..], p.env, x, fuel);
      Success((p.code + rest.0, rest.1))
  }

  /** List members in order; a splice contributes its members, anything else one member. */
  function Members(es: seq<SExp>, mode: Mode, env: Env, x: Expander, fuel: nat)
    : (r: Result<(seq<seq<Token>>, Env), CompileError>)
    ensures r.Success? ==> Keeps(env, r.value.1)
    ensures mode == Quote ==> r.Success? && r.value.1 == env
    decreases fuel, SizeAll(es), 2
  {
    if |es| == 0 then Success(([], env))
    else
      SizeElement(es, 0);
      var p :- Compile(es[0], true, mode, env, x, fuel);
      var rest :- Members(es[1..], mode, p.env, x, fuel);
      var mine := if p.shape.Spliced? then p.shape.members else [p.code];
      Success((mine + rest.0, rest.1))
  }

  /** A form of one operand and one instruction: `car`, `cdr`, `null?`, `string-length`, `list->string`. */
  function Unary(args: seq<SExp>, op: Opcode, use: bool, env: Env, x: Expander, fuel: nat)
    : (r: Result<Piece, CompileError>)
    ensures r.Success? ==> Keeps(env, r.value.env)
    decreases fuel, SizeAll(args), 3
  {
    var a :- CompileOpt(Arg(args, 0), true, Normal, env, x, fuel);
    Success(Piece(a.code + [Op(op)] + PopMaybe(use), Plain, a.env))
  }

  /** A form of two operands and one instruction: the arithmetic and comparisons, `string-ref`. */
  function Binary(args: seq<SExp>, op: Opcode, use: bool, env: Env, x: Expander, fuel: nat)
    : (r: Result<Piece, CompileError>)
    ensures r.Success? ==> Keeps(env, r.value.env)
    decreases fuel, SizeAll(args), 3
  {
    var a :- CompileOpt(Arg(args, 0), true, Normal, env, x, fuel);
    var b :- CompileOpt(Arg(args, 1), true, Normal, a.env, x, fuel);
    Success(Piece(a.code + b.code + [Op(op)] + PopMaybe(use), Plain, b.env))
  }

  /** `if`: the true branch, the false branch and then the condition are compiled, in that order. */
  function If(args: seq<SExp>, use: bool, env: Env, x: Expander, fuel: nat): (r: Result<Piece, CompileError>)
    ensures r.Success? ==> Keeps(env, r.value.env)
    decreases fuel, SizeAll(args), 3
  {
    var t :- CompileOpt(Arg(args, 1), true, Normal, env, x, fuel);
    var f :- CompileOpt(Arg(args, 2), true, Normal, t.env, x, fuel);
    var c :- CompileOpt(Arg(args, 0), true, Normal, f.env, x, fuel);
    Success(Piece(IfCode(c.code, t.code, f.code) + PopMaybe(use), Plain, c.env))
  }

  /** `lambda`: parameters bound first, the body compiled against them alone, RETURN, ENDF. */
  function Lambda(args: seq<SExp>, use: bool, env: Env, x: Expander, fuel: nat): (r: Result<Piece, CompileError>)
    ensures r.Success? ==> r.value.env == env
    decreases fuel, SizeAll(args), 3
  {
    var p :- LambdaParams(Arg(args, 0));
    var bodyForms := if |args| == 0 then [] else args[1..];
    SizeDrop(args, if |args| == 0 then 0 else 1);
    var b :- Body(bodyForms, Env(p.locals, map[]), x, fuel);
    Success(Piece([Op(PushFunc)] + p.code + b.0 + [Op(Return), Op(Endf)] + PopMaybe(use), Plain, env))
  }

  /** `apply`: the arguments after the function, their count, SET_ARGS, the function, APPLY. */
  function ApplyForm(args: seq<SExp>, env: Env, x: Expander, fuel: nat): (r: Result<Piece, CompileError>)
    ensures |args| < 2 ==> r == Failure(ApplyArity)
    ensures r.Success? ==> Keeps(env, r.value.env)
    decreases fuel, SizeAll(args), 3
  {
    if |args| < 2 then Failure(ApplyArity)
    else
      SizeElement(args, 0);
      var a :- Args(args[1..], env, x, fuel);
      var f :- Compile(args[0], true, Normal, a.1, x, fuel);
      Success(Piece(a.0 + [Op(PushNum), Num(|args| - 1), Op(SetArgs)] + f.code + [Op(Apply)], Plain, f.env))
  }

  /** `define`: the name becomes local before its value is compiled, then SET_LOCAL. */
  function Define(args: seq<SExp>, env: Env, x: Expander, fuel: nat): (r: Result<Piece, CompileError>)
    ensures r.Success? ==> Keeps(env, r.value.env)
    decreases fuel, SizeAll(args), 3
  {
    match Arg(args, 0)
    case Some(Atom(n)) =>
      var v :- CompileOpt(Arg(args, 1), true, Normal, env.(locals := env.locals + {n}), x, fuel);
      Success(Piece(v.code + [Op(SetLocal), Txt(n)], Plain, v.env))
    case _ => Failure(BadName)
  }

  /** `define-syntax`: records the rules' transformer under the name; emits nothing. */
  function DefineSyntax(args: seq<SExp>, env: Env): (r: Result<Piece, CompileError>)
    ensures r.Success? ==> r.value.code == [] && Keeps(env, r.value.env)
  {
    match Arg(args, 1)
    case Some(List(ts)) =>
      (match SyntaxRules(if |ts| == 0 then [] else ts[1..])
       case None => Failure(BadRules)
       case Some(tr) =>
         var env' := match Arg(args, 0)
           case Some(Atom(n)) => env.(syntax := env.syntax[n := tr])
           case _ => env;
         Success(Piece([], Plain, env')))
    case _ => Failure(BadTransformer)
  }

  /** The special forms, by handler name. */
  function Special(m: string, args: seq<SExp>, use: bool, env: Env, x: Expander, fuel: nat)
    : (r: Result<Piece, CompileError>)
    requires m in SpecialForms
    ensures r.Success? ==> Keeps(env, r.value.env)
    decreases fuel, SizeAll(args), 4
  {
    if m == "begin" then
      var b :- Body(args, env, x, fuel);
      Success(Piece(b.0, Plain, b.1))
    else if m == "car" then Unary(args, PushCar, use, env, x, fuel)
    else if m == "cdr" then Unary(args, PushCdr, use, env, x, fuel)
    else if m == "null?" then Unary(args, CmpNull, use, env, x, fuel)
    else if m == "string_length" then Unary(args, StrLen, use, env, x, fuel)
    else if m == "list_to_string" then Unary(args, ListToStr, use, env, x, fuel)
    else if m == "cons" then
      if |args| != 2 then Failure(ConsArity)
      else
        var a :- Args(args, env, x, fuel);
        Success(Piece(a.0 + [Op(PushCons)] + PopMaybe(use), Plain, a.1))
    else if m == "append" then
      var a :- Args(args, env, x, fuel);
      Success(Piece(a.0 + [Op(PushNum), Num(|args|), Op(Append)] + PopMaybe(use), Plain, a.1))
    else if m == "string_ref" then Binary(args, StrRef, use, env, x, fuel)
    else if m == "quote" then CompileOpt(Arg(args, 0), use, Quote, env, x, fuel)
    else if m == "quasiquote" then CompileOpt(Arg(args, 0), use, Quasi, env, x, fuel)
    else if m == "define" then Define(args, env, x, fuel)
    else if m == "lambda" then Lambda(args, use, env, x, fuel)
    else if m == "apply" then ApplyForm(args, env, x, fuel)
    else if m == "list" then
      var ms :- Members(args, Normal, env, x, fuel);
      Success(ListPiece(ms.0, use, ms.1))
    else if m == "define_syntax" then DefineSyntax(args, env)
    else if m == "syntax_rules" then
      match SyntaxRules(args)
      case None => Failure(BadRules)
      case Some(tr) => Success(Piece(AtomTexts(tr), Plain, env))
    else if m == "if" then If(args, use, env, x, fuel)
    else if m == "+" then Binary(args, Add, use, env, x, fuel)
    else if m == "-" then Binary(args, Sub, use, env, x, fuel)
    else if m == ">" then Binary(args, CmpGt, use, env, x, fuel)
    else if m == ">=" then Binary(args, CmpGte, use, env, x, fuel)
    else if m == "<" then Binary(args, CmpLt, use, env, x, fuel)
    else if m == "<=" then Binary(args, CmpLte, use, env, x, fuel)
    else if m == "=" then Binary(args, CmpEqNum, use, env, x, fuel)
    else if m == "eq?" then Binary(args, CmpEq, use, env, x, fuel)
    else if m == "include" then
      var a :- CompileOpt(Arg(args, 0), true, Normal, env, x, fuel);
      Success(Piece(a.code + [Op(Int), Op(IntInclude)], Plain, a.env))
    else
      assert m == "write";
      var a :- Args(args, env, x, fuel);
      Success(Piece(a.0 + [Op(Int), Op(IntWrite)], Plain, a.1))
  }

  /** `compile`: a program is a body over empty tables, optionally followed by HALT. */
  function Program(es: seq<SExp>, halt: bool, x: Expander, fuel: nat): (r: Result<seq<Token>, CompileError>)
    ensures r.Success? <==> Body(es, Env({}, map[]), x, fuel).Success?
    ensures r.Success? && halt ==> r.value == Body(es, Env({}, map[]), x, fuel).value.0 + [Op(Halt)]
    ensures r.Success? && !halt ==> r.value == Body(es, Env({}, map[]), x, fuel).value.0
  {
    var b :- Body(es, Env({}, map[]), x, fuel);
    Success(b.0 + (if halt then [Op(Halt)] else []))
  }
}
