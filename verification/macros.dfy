/**
 * The pure tree rewrite behind `syntax-rules`: every rule becomes one `if`
 * that compares the pattern's length with the form's, and whose true branch
 * applies a lambda over the pattern variables to the form's tail; the
 * template is turned into a quasiquote in which each pattern variable is
 * unquoted. The rules nest in source order around an empty-list fallback,
 * inside `(lambda (expr) ...)`.
 */
module Macros {
  import opened Wrappers
  import opened SExps

  /** Wraps every subtree equal to one of `names` in `(unquote ...)`; other atoms stay. */
  function UnquoteNames(t: SExp, names: seq<SExp>): (r: SExp)
    ensures t in names ==> r == List([Atom("unquote"), t])
    ensures t !in names && t.Atom? ==> r == t
    ensures t !in names && t.List? ==> r.List? && |r.items| == |t.items|
    decreases t
  {
    if t in names then List([Atom("unquote"), t])
    else match t
      case Atom(_) => t
      case List(ts) => List(seq(|ts|, i requires 0 <= i < |ts| => UnquoteNames(ts[i], names)))
  }

  /** A rule `(pattern template)`: the pattern, its variables (all but its head), the template. */
  datatype Rule = Rule(pattern: SExp, names: seq<SExp>, template: SExp)

  /** Reads a rule; the pattern must be a non-empty list and the template present. */
  function ParseRule(r: SExp): (p: Option<Rule>)
    ensures p.Some? ==> p.value.pattern.List? && |p.value.pattern.items| >= 1
                        && p.value.names == p.value.pattern.items[1..]
  {
    if r.List? && |r.items| >= 2 && r.items[0].List? && |r.items[0].items| >= 1 then
      Some(Rule(r.items[0], r.items[0].items[1..], r.items[1]))
    else None
  }

  function Quote(e: SExp): SExp {
    List([Atom("quote"), e])
  }

  /** `(apply (lambda names (quasiquote template')) (cdr expr))` */
  function Apply(rule: Rule): SExp {
    List([Atom("apply"),
          List([Atom("lambda"), List(rule.names),
                List([Atom("quasiquote"), UnquoteNames(rule.template, rule.names)])]),
          List([Atom("cdr"), Atom("expr")])])
  }

  /** `(if (= (length (quote pattern)) (length expr)) <apply> rest)` */
  function Guarded(rule: Rule, rest: SExp): SExp {
    List([Atom("if"),
          List([Atom("="), List([Atom("length"), Quote(rule.pattern)]), List([Atom("length"), Atom("expr")])]),
          Apply(rule),
          rest])
  }

  /** The rules chained first-outermost around the empty-list fallback. */
  function Chain(rules: seq<SExp>): Option<SExp>
    decreases |rules|
  {
    if |rules| == 0 then Some(List([]))
    else match ParseRule(rules[0])
      case None => None
      case Some(rule) =>
        match Chain(rules[1..])
        case None => None
        case Some(rest) => Some(Guarded(rule, rest))
  }

  /** `syntax-rules`: the arguments are the literal identifiers, then the rules. */
  function SyntaxRules(args: seq<SExp>): (r: Option<SExp>)
    ensures r.Some? <==> forall k :: 1 <= k < |args| ==> ParseRule(args[k]).Some?
    ensures r.Some? ==> r.value.List? && |r.value.items| == 3
                        && r.value.items[0] == Atom("lambda") && r.value.items[1] == List([Atom("expr")])
  {
    var rules := if |args| == 0 then [] else args[1..];
    ChainDefined(rules);
    match Chain(rules)
    case None => None
    case Some(chain) => Some(List([Atom("lambda"), List([Atom("expr")]), chain]))
  }

  lemma {:induction false} ChainDefined(rules: seq<SExp>)
    ensures Chain(rules).Some? <==> forall k :: 0 <= k < |rules| ==> ParseRule(rules[k]).Some?
    decreases |rules|
  {
    if |rules| > 0 {
      ChainDefined(rules[1..]);
      assert forall k :: 1 <= k < |rules| ==> rules[1..][k - 1] == rules[k];
    }
  }

  // ---------------------------------------------------------------- what the chain selects

  /**
   * Reads a chain the way the machine runs it, for a form of `n` elements:
   * the body of the first `if` whose quoted pattern has `n` elements, or
   * nothing once the fallback is reached.
   */
  function Select(chain: SExp, n: nat): Option<SExp>
    decreases chain
  {
    if chain.List? && |chain.items| == 4 && chain.items[0] == Atom("if") then
      var test := chain.items[1];
      if test.List? && |test.items| == 3 && test.items[1].List? && |test.items[1].items| == 2
         && test.items[1].items[1].List? && |test.items[1].items[1].items| == 2
         && test.items[1].items[1].items[1].List? then
        if |test.items[1].items[1].items[1].items| == n then Some(chain.items[2])
        else Select(chain.items[3], n)
      else None
    else None
  }

  /** The rule that should fire for a form of `n` elements: the first whose pattern has `n`. */
  function FirstMatch(rules: seq<SExp>, n: nat): Option<SExp>
    decreases |rules|
  {
    if |rules| == 0 then None
    else match ParseRule(rules[0])
      case None => None
      case Some(rule) =>
        if |rule.pattern.items| == n then Some(Apply(rule)) else FirstMatch(rules[1..], n)
  }

  /** The chain tests the rules in source order and the first whose pattern length fits wins. */
  lemma {:induction false} ChainSelectsFirstMatch(rules: seq<SExp>, n: nat)
    requires Chain(rules).Some?
    ensures Select(Chain(rules).value, n) == FirstMatch(rules, n)
    decreases |rules|
  {
    if |rules| > 0 {
      ChainSelectsFirstMatch(rules[1..], n);
    }
  }

  // ---------------------------------------------------------------- what the template yields

  /** Replaces every subtree bound in `b` by its binding. */
  function Subst(t: SExp, b: map<SExp, SExp>): SExp
    decreases t
  {
    if t in b then b[t]
    else match t
      case Atom(_) => t
      case List(ts) => List(seq(|ts|, i requires 0 <= i < |ts| => Subst(ts[i], b)))
  }

  /** Quasiquote evaluation: `(unquote x)` becomes the value bound to `x`, the rest is copied. */
  function Fill(t: SExp, b: map<SExp, SExp>): SExp
    decreases t
  {
    if t.List? && |t.items| == 2 && t.items[0] == Atom("unquote") && t.items[1] in b then b[t.items[1]]
    else match t
      case Atom(_) => t
      case List(ts) => List(seq(|ts|, i requires 0 <= i < |ts| => Fill(ts[i], b)))
  }

  /** Whether the atom `unquote` occurs anywhere in `t`. */
  predicate MentionsUnquote(t: SExp)
    decreases t
  {
    match t
    case Atom(s) => s == "unquote"
    case List(ts) => exists i :: 0 <= i < |ts| && MentionsUnquote(ts[i])
  }

  /**
   * Expanding the rewritten template with the pattern variables bound is the
   * same as substituting them into the original template, as long as the
   * template does not itself use `unquote`.
   */
  lemma {:induction false} FillUnquotedIsSubst(t: SExp, names: seq<SExp>, b: map<SExp, SExp>)
    requires forall x :: x in names <==> x in b
    requires !MentionsUnquote(t)
    ensures Fill(UnquoteNames(t, names), b) == Subst(t, b)
    decreases t
  {
    if t in names {
      assert UnquoteNames(t, names) == List([Atom("unquote"), t]);
    } else if t.List? {
      var ts := t.items;
      var u := UnquoteNames(t, names);
      forall i | 0 <= i < |ts|
        ensures Fill(u.items[i], b) == Subst(ts[i], b)
      {
        assert !MentionsUnquote(ts[i]);
        FillUnquotedIsSubst(ts[i], names, b);
      }
      assert Fill(u, b) == List(seq(|ts|, i requires 0 <= i < |ts| => Fill(u.items[i], b)));
    }
  }
}
