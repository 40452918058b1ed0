/**
 * The instruction set of the virtual machine: the opcode table with its fixed
 * operand counts, and the tokens that fill the code cells of the heap.
 *
 * In the source an opcode is nothing but its position in the instruction table,
 * so an integer operand that happens to lie in 0..34 is indistinguishable from
 * an opcode once the instruction pointer lands on it. `Decode` keeps that.
 */
module Bytecode {
  import opened Wrappers

  datatype Opcode =
    // the 35 rows of the machine's instruction table, in table order
    | PushAtom | PushNum | PushStr | PushTrue | PushFalse | PushCar | PushCdr | PushCons | PushList
    | PushLocal | PushRemote | PushArg | PushArgs | PushFunc | Pop | Add | Sub
    | CmpGt | CmpGte | CmpLt | CmpLte | CmpEq | CmpNull | Dup | Endf | Int | Jump | JumpIfFalse
    | Call | Apply | Return | SetLocal | SetArgs | Halt | Debug
    // emitted by the compiler or named by tests, but absent from the machine's table
    | PushChar | Append | StrRef | StrLen | ListToStr | PushType | CmpEqv | CmpEqNum
    | JumpIfTrue | SetRemote | Label | IntWrite | IntInclude

  /** One cell of code: an opcode, an integer operand, or a text operand. */
  datatype Token = Op(op: Opcode) | Num(n: int) | Txt(s: string)

  predicate InTable(o: Opcode) {
    !(o.PushChar? || o.Append? || o.StrRef? || o.StrLen? || o.ListToStr? || o.PushType?
      || o.CmpEqv? || o.CmpEqNum? || o.JumpIfTrue? || o.SetRemote? || o.Label?
      || o.IntWrite? || o.IntInclude?)
  }

  /** The opcode number of a table row, i.e. the integer the source uses for it. */
  function Index(o: Opcode): (i: nat)
    requires InTable(o)
    ensures i < TableSize
  {
    match o
    case PushAtom => 0    case PushNum => 1     case PushStr => 2     case PushTrue => 3
    case PushFalse => 4   case PushCar => 5     case PushCdr => 6     case PushCons => 7
    case PushList => 8    case PushLocal => 9   case PushRemote => 10 case PushArg => 11
    case PushArgs => 12   case PushFunc => 13   case Pop => 14        case Add => 15
    case Sub => 16        case CmpGt => 17      case CmpGte => 18     case CmpLt => 19
    case CmpLte => 20     case CmpEq => 21      case CmpNull => 22    case Dup => 23
    case Endf => 24       case Int => 25        case Jump => 26       case JumpIfFalse => 27
    case Call => 28       case Apply => 29      case Return => 30     case SetLocal => 31
    case SetArgs => 32    case Halt => 33       case Debug => 34
  }

  /** Rows of the instruction table. */
  const TableSize := 35

  /** The table row with opcode number `n`, if there is one: the inverse of `Index`. */
  function FromIndex(n: int): (r: Option<Opcode>)
    ensures r.Some? <==> 0 <= n < TableSize
    ensures r.Some? ==> InTable(r.value)
  {
    match n
    case 0 => Some(PushAtom)    case 1 => Some(PushNum)     case 2 => Some(PushStr)     case 3 => Some(PushTrue)
    case 4 => Some(PushFalse)   case 5 => Some(PushCar)     case 6 => Some(PushCdr)     case 7 => Some(PushCons)
    case 8 => Some(PushList)    case 9 => Some(PushLocal)   case 10 => Some(PushRemote) case 11 => Some(PushArg)
    case 12 => Some(PushArgs)   case 13 => Some(PushFunc)   case 14 => Some(Pop)        case 15 => Some(Add)
    case 16 => Some(Sub)        case 17 => Some(CmpGt)      case 18 => Some(CmpGte)     case 19 => Some(CmpLt)
    case 20 => Some(CmpLte)     case 21 => Some(CmpEq)      case 22 => Some(CmpNull)    case 23 => Some(Dup)
    case 24 => Some(Endf)       case 25 => Some(Int)        case 26 => Some(Jump)       case 27 => Some(JumpIfFalse)
    case 28 => Some(Call)       case 29 => Some(Apply)      case 30 => Some(Return)     case 31 => Some(SetLocal)
    case 32 => Some(SetArgs)    case 33 => Some(Halt)       case 34 => Some(Debug)
    case _ => None
  }

  /** Every table row's number leads back to the row ... */
  lemma {:induction false} IndexRoundTrip(o: Opcode)
    requires InTable(o)
    ensures FromIndex(Index(o)) == Some(o)
  {
  }

  /** ... and every opcode number names the row with that number. */
  lemma {:induction false} FromIndexRoundTrip(n: int)
    requires 0 <= n < TableSize
    ensures Index(FromIndex(n).value) == n
  {
  }

  /** Fixed operand count of each table row. */
  function Arity(o: Opcode): (n: nat)
    requires InTable(o)
    ensures n <= 1
    ensures n == 1 <==> o in {PushAtom, PushNum, PushStr, PushLocal, PushRemote, Int, Jump, JumpIfFalse, SetLocal}
  {
    match o
    case PushAtom => 1  case PushNum => 1  case PushStr => 1  case PushLocal => 1
    case PushRemote => 1  case Int => 1  case Jump => 1  case JumpIfFalse => 1  case SetLocal => 1
    case _ => 0
  }

  /** The opcode a token denotes when the instruction pointer fetches it, if any. */
  function Decode(t: Token): (r: Option<Opcode>)
    ensures t.Op? ==> r == Some(t.op)
    ensures t.Num? ==> (r.Some? <==> 0 <= t.n < TableSize) && (r.Some? ==> InTable(r.value) && Index(r.value) == t.n)
    ensures t.Txt? ==> r.None?
  {
    match t
    case Op(o) => Some(o)
    case Num(n) => if 0 <= n < TableSize then FromIndexRoundTrip(n); FromIndex(n) else FromIndex(n)
    case Txt(_) => None
  }

  /** The integer a token is, when the source holds an Integer there. */
  function AsInteger(t: Token): (r: Option<int>)
    ensures t.Num? ==> r == Some(t.n)
    ensures t.Op? ==> (r.Some? <==> InTable(t.op))
    ensures t.Txt? ==> r.None?
  {
    match t
    case Num(n) => Some(n)
    case Op(o) => if InTable(o) then Some(Index(o)) else None
    case Txt(_) => None
  }

  predicate IsDigit(c: char) {
    '0' <= c <= '9'
  }

  /** The white space `to_i` passes over before the number: space, tab, newline, vertical tab, form feed, return. */
  predicate IsBlank(c: char) {
    c == ' ' || 9 <= c as int <= 13
  }

  /** `s` without its leading blanks. */
  function SkipBlanks(s: string): (r: string)
    ensures |r| <= |s| && r == s[|s| - |r|..]
    ensures |r| > 0 ==> !IsBlank(r[0])
    ensures forall i :: 0 <= i < |s| - |r| ==> IsBlank(s[i])
    decreases |s|
  {
    if |s| > 0 && IsBlank(s[0]) then SkipBlanks(s[1..]) else s
  }

  /**
   * Value of the digit run at the start of `s`, added after `acc`. A single
   * underscore between two digits is passed over; anything else ends the run.
   */
  function LeadingDigits(s: string, acc: int): int
    decreases |s|
  {
    if |s| == 0 || !IsDigit(s[0]) then acc
    else
      var a := acc * 10 + (s[0] as int - '0' as int);
      if |s| >= 3 && s[1] == '_' && IsDigit(s[2]) then LeadingDigits(s[2..], a)
      else LeadingDigits(s[1..], a)
  }

  /**
   * Reading of operand text as an integer, as `to_i` does it: leading blanks,
   * an optional sign, then the digit run; 0 when there are no digits.
   */
  function TextToInt(s: string): int {
    var t := SkipBlanks(s);
    if |t| > 0 && t[0] == '-' then -LeadingDigits(t[1..], 0)
    else if |t| > 0 && t[0] == '+' then LeadingDigits(t[1..], 0)
    else LeadingDigits(t, 0)
  }

  /** Decimal rendering of a natural number, the form numeric literals take in source text. */
  function Decimal(n: nat): (s: string)
    ensures |s| > 0 && forall i :: 0 <= i < |s| ==> IsDigit(s[i])
    decreases n
  {
    if n < 10 then [('0' as int + n) as char]
    else Decimal(n / 10) + [('0' as int + n % 10) as char]
  }

  lemma {:induction false} LeadingDigitsAppend(s: string, c: char, acc: int)
    requires forall i :: 0 <= i < |s| ==> IsDigit(s[i])
    requires IsDigit(c)
    ensures LeadingDigits(s + [c], acc) == LeadingDigits(s, acc) * 10 + (c as int - '0' as int)
    decreases |s|
  {
    if |s| == 0 {
      assert (s + [c])[1..] == [];
    } else {
      assert (s + [c])[0] == s[0];
      assert (s + [c])[1..] == s[1..] + [c];
      assert |s + [c]| >= 3 ==> (s + [c])[1] != '_';
      LeadingDigitsAppend(s[1..], c, acc * 10 + (s[0] as int - '0' as int));
    }
  }

  /** The digit run of the decimal text of a natural number is that number. */
  lemma {:induction false} LeadingDigitsDecimal(n: nat)
    ensures LeadingDigits(Decimal(n), 0) == n
    decreases n
  {
    if n < 10 {
      var c := ('0' as int + n) as char;
      assert Decimal(n) == [c] && c as int - '0' as int == n;
      assert LeadingDigits([c], 0) == LeadingDigits([], n);
    } else {
      LeadingDigitsDecimal(n / 10);
      LeadingDigitsAppend(Decimal(n / 10), ('0' as int + n % 10) as char, 0);
    }
  }

  /** Reading back the decimal text of a natural number yields that number. */
  lemma {:induction false} TextToIntDecimal(n: nat)
    ensures TextToInt(Decimal(n)) == n
    ensures LeadingDigits(Decimal(n), 0) == n
  {
    var d := Decimal(n);
    assert IsDigit(d[0]);
    assert !IsBlank(d[0]) && d[0] != '-' && d[0] != '+';
    assert SkipBlanks(d) == d;
    LeadingDigitsDecimal(n);
  }

  /** Blanks in front of the text do not change its reading. */
  lemma {:induction false} TextToIntBlanks(b: string, s: string)
    requires forall i :: 0 <= i < |b| ==> IsBlank(b[i])
    ensures TextToInt(b + s) == TextToInt(s)
    decreases |b|
  {
    if |b| > 0 {
      assert (b + s)[0] == b[0] && (b + s)[1..] == b[1..] + s;
      TextToIntBlanks(b[1..], s);
    } else {
      assert b + s == s;
    }
  }

  /** A minus sign in front of the decimal text of a natural number reads as its negation. */
  lemma {:induction false} TextToIntNegative(n: nat)
    ensures TextToInt("-" + Decimal(n)) == -(n as int)
  {
    var t := "-" + Decimal(n);
    assert t[0] == '-' && !IsBlank(t[0]) && t[1..] == Decimal(n);
    assert SkipBlanks(t) == t;
    LeadingDigitsDecimal(n);
  }

  /** One underscore between two digits is passed over: the run reads as if it were not there. */
  lemma {:induction false} UnderscoreBetweenDigits(a: string, b: string, acc: int)
    requires |a| > 0 && forall i :: 0 <= i < |a| ==> IsDigit(a[i])
    requires |b| > 0 && IsDigit(b[0])
    ensures LeadingDigits(a + "_" + b, acc) == LeadingDigits(a + b, acc)
    decreases |a|
  {
    var u, v := a + "_" + b, a + b;
    var next := acc * 10 + (a[0] as int - '0' as int);
    assert u[0] == a[0] && v[0] == a[0];
    if |a| == 1 {
      assert u[1] == '_' && u[2] == b[0] && u[2..] == b;
      assert v[1] == b[0] && v[1..] == b;
    } else {
      assert u[1] == a[1] && u[1..] == a[1..] + "_" + b;
      assert v[1] == a[1] && v[1..] == a[1..] + b;
      UnderscoreBetweenDigits(a[1..], b, next);
    }
  }

  /** The integer an operand stands for when the source calls `to_i` on it. */
  function ToI(t: Token): (r: Option<int>)
    ensures t.Num? ==> r == Some(t.n)
    ensures t.Txt? ==> r == Some(TextToInt(t.s))
    ensures t.Op? ==> r == AsInteger(t)
  {
    match t
    case Txt(s) => Some(TextToInt(s))
    case _ => AsInteger(t)
  }
}
