/**
 * The compiler's input: S-expression trees whose leaves are atom texts, their
 * size (the measure the compiler recurses on), and the text operations the
 * compiler applies to atom names: trimming, substring search and the mangling
 * that turns a form name into the name of its handler.
 */
module SExps {
  import opened Wrappers

  datatype SExp = Atom(s: string) | List(items: seq<SExp>)

  function Size(e: SExp): (n: nat)
    ensures n >= 1
    decreases e
  {
    match e
    case Atom(_) => 1
    case List(es) => 1 + SizeAll(es)
  }

  function SizeAll(es: seq<SExp>): nat
    decreases es
  {
    if |es| == 0 then 0 else Size(es[0]) + SizeAll(es[1..])
  }

  /** The size of a destructured argument that may be missing. */
  function Rank(o: Option<SExp>): nat {
    if o.Some? then Size(o.value) else 0
  }

  lemma {:induction false} SizeElement(es: seq<SExp>, k: nat)
    requires k < |es|
    ensures Size(es[k]) <= SizeAll(es)
    ensures SizeAll(es[k + 1..]) < SizeAll(es)
    decreases k
  {
    if k > 0 {
      SizeElement(es[1..], k - 1);
      assert es[1..][k - 1] == es[k];
      assert es[1..][k..] == es[k + 1..];
    }
  }

  lemma {:induction false} SizeDrop(es: seq<SExp>, k: nat)
    requires k <= |es|
    ensures SizeAll(es[k..]) <= SizeAll(es)
  {
    if k > 0 {
      SizeElement(es, k - 1);
    }
  }

  /** The element at `k`, or nothing when the list is shorter: array destructuring. */
  function Arg(es: seq<SExp>, k: nat): (r: Option<SExp>)
    ensures Rank(r) <= SizeAll(es)
  {
    if k < |es| then SizeElement(es, k); Some(es[k]) else None
  }

  // ---------------------------------------------------------------- text

  predicate IsLower(c: char) {
    'a' <= c <= 'z'
  }

  /** The characters the source's `strip` removes at either end. */
  predicate IsSpace(c: char) {
    c == ' ' || c == '\0' || 9 <= c as int <= 13  // tab, line feed, vertical tab, form feed, return
  }

  function TrimLeft(s: string): (r: string)
    ensures |r| <= |s| && r == s[|s| - |r|..]
    ensures |r| > 0 ==> !IsSpace(r[0])
    ensures forall i :: 0 <= i < |s| - |r| ==> IsSpace(s[i])
  {
    if |s| > 0 && IsSpace(s[0]) then TrimLeft(s[1..]) else s
  }

  function TrimRight(s: string): (r: string)
    ensures |r| <= |s| && r == s[..|r|]
    ensures |r| > 0 ==> !IsSpace(r[|r| - 1])
    ensures forall i :: |r| <= i < |s| ==> IsSpace(s[i])
  {
    if |s| > 0 && IsSpace(s[|s| - 1]) then TrimRight(s[..|s| - 1]) else s
  }

  /** `strip`: the text without surrounding white space. */
  function Strip(s: string): (r: string)
    ensures |r| > 0 ==> !IsSpace(r[0]) && !IsSpace(r[|r| - 1])
    ensures var d := |s| - |TrimLeft(s)|;
            && d + |r| <= |s| && r == s[d..d + |r|]
            && (forall i :: 0 <= i < d ==> IsSpace(s[i]))
            && (forall i :: d + |r| <= i < |s| ==> IsSpace(s[i]))
  {
    TrimBoth(s, TrimLeft(s), TrimRight(TrimLeft(s)));
    TrimRight(TrimLeft(s))
  }

  /** A prefix of a suffix of `s` is a slice of `s`, and what the prefix drops lies past the slice. */
  lemma {:induction false} TrimBoth(s: string, l: string, r: string)
    requires |l| <= |s| && l == s[|s| - |l|..]
    requires |r| <= |l| && r == l[..|r|]
    requires forall i :: |r| <= i < |l| ==> IsSpace(l[i])
    ensures var d := |s| - |l|;
            && d + |r| <= |s| && r == s[d..d + |r|]
            && (forall i :: d + |r| <= i < |s| ==> IsSpace(s[i]))
  {
    var d := |s| - |l|;
    forall i | 0 <= i < |r| ensures r[i] == s[d + i] { assert r[i] == l[i] == s[d + i]; }
    assert r == s[d..d + |r|];
    forall i | d + |r| <= i < |s| ensures IsSpace(s[i]) { assert s[i] == l[i - d]; }
  }

  /** Whether `sub` occurs somewhere in `s`. */
  predicate Contains(s: string, sub: string)
    decreases |s|
  {
    |sub| <= |s| && (s[..|sub|] == sub || Contains(s[1..], sub))
  }

  // ---------------------------------------------------------------- handler names

  /** Every `->` becomes `_to_`, scanning left to right. */
  function ArrowsToTo(s: string): string
    decreases |s|
  {
    if |s| >= 2 && s[0] == '-' && s[1] == '>' then "_to_" + ArrowsToTo(s[2..])
    else if |s| == 0 then ""
    else [s[0]] + ArrowsToTo(s[1..])
  }

  /** Every lower-case letter followed by `-` keeps the letter and turns the `-` into `_`. */
  function LetterDashes(s: string): string
    decreases |s|
  {
    if |s| >= 2 && IsLower(s[0]) && s[1] == '-' then [s[0], '_'] + LetterDashes(s[2..])
    else if |s| == 0 then ""
    else [s[0]] + LetterDashes(s[1..])
  }

  /** The handler suffix a form name maps to. */
  function Mangle(name: string): string {
    LetterDashes(ArrowsToTo(name))
  }

  /** The suffixes that have a handler: the special forms. */
  const SpecialForms: set<string> :=
    { "begin", "car", "cdr", "cons", "append", "null?", "string_ref", "string_length",
      "list_to_string", "quote", "quasiquote", "define", "lambda", "apply", "list",
      "define_syntax", "syntax_rules", "if", "+", "-", ">", ">=", "<", "<=", "=", "eq?",
      "include", "write" }

  predicate IsSpecial(name: string) {
    Mangle(name) in SpecialForms
  }
}
