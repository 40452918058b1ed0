/**
 * The shared address space: one growable array of cells, each empty, a code
 * token, or a value. Addresses are indices into it; allocation takes the first
 * empty cell, else appends. Lists are right-nested pair chains.
 */
module Heap {
  import opened Wrappers
  import opened Bytecode

  datatype Value =
    | Atom(name: Token)
    | Integer(n: int)
    | ByteArray(s: string)
    | Char(c: char)
    | Pair(car: nat, cdr: nat)
    | EmptyList
    | BoolTrue
    | BoolFalse

  datatype Cell = Empty | Code(tok: Token) | Val(v: Value)

  type Mem = seq<Cell>

  function AllocFrom(h: Mem, i: nat): (a: nat)
    requires i <= |h|
    ensures i <= a <= |h|
    ensures a < |h| ==> h[a].Empty?
    decreases |h| - i
  {
    if i == |h| then i else if h[i].Empty? then i else AllocFrom(h, i + 1)
  }

  /** The search passes only cells in use. */
  lemma {:induction false} AllocFromLowest(h: Mem, i: nat, j: nat)
    requires i <= |h| && i <= j < AllocFrom(h, i)
    ensures !h[j].Empty?
    decreases |h| - i
  {
    if j > i {
      AllocFromLowest(h, i + 1, j);
    }
  }

  /** The lowest empty cell, or the heap length when every cell is in use. */
  function Alloc(h: Mem): (a: nat)
    ensures a <= |h|
    ensures a < |h| ==> h[a].Empty?
  {
    AllocFrom(h, 0)
  }

  /** Every cell below the allocated address is in use: `Alloc` picks the lowest free one. */
  lemma {:induction false} AllocLowest(h: Mem)
    ensures forall j :: 0 <= j < Alloc(h) ==> !h[j].Empty?
  {
    forall j | 0 <= j < Alloc(h) {
      AllocFromLowest(h, 0, j);
    }
  }

  /** Writing a value at an address that is inside the heap or just past its end. */
  function Store(h: Mem, a: nat, v: Value): (h': Mem)
    requires a <= |h|
    ensures |h'| == if a < |h| then |h| else |h| + 1
    ensures h'[a] == Val(v)
  {
    if a < |h| then h[a := Val(v)] else h + [Val(v)]
  }

  /** `h'` keeps every cell of `h` that was in use. */
  predicate Extends(h: Mem, h': Mem) {
    |h| <= |h'| && forall j :: 0 <= j < |h| && !h[j].Empty? ==> h'[j] == h[j]
  }

  /** Allocation followed by a store: the value lands in the lowest free cell, nothing in use moves. */
  function AllocStore(h: Mem, v: Value): (r: (nat, Mem))
    ensures r.0 == Alloc(h) && r.0 < |r.1|
    ensures r.1[r.0] == Val(v)
    ensures |r.1| == if r.0 < |h| then |h| else |h| + 1
    ensures Extends(h, r.1)
  {
    var a := Alloc(h);
    (a, Store(h, a, v))
  }

  /** Dereferencing an address: fails ("invalid address") on an empty or missing cell. */
  function Resolve(h: Mem, a: nat): (r: Option<Cell>)
    ensures r.Some? <==> a < |h| && !h[a].Empty?
    ensures r.Some? ==> r.value == h[a]
  {
    if a < |h| && !h[a].Empty? then Some(h[a]) else None
  }

  /** The cell at `a` starts a proper list whose cars are `xs`, ending at address `nil`. */
  predicate ListAt(h: Mem, a: nat, xs: seq<nat>, nil: nat)
    decreases |xs|
  {
    if |xs| == 0 then a == nil
    else a < |h| && h[a].Val? && h[a].v.Pair? && h[a].v.car == xs[0]
         && ListAt(h, h[a].v.cdr, xs[1..], nil)
  }

  /** A cell that was in use before an extension is still there, unchanged. */
  lemma {:induction false} ExtendsKeeps(h: Mem, h': Mem, i: nat)
    requires Extends(h, h')
    ensures i < |h| && !h[i].Empty? ==> i < |h'| && h'[i] == h[i]
  {
  }

  lemma {:induction false} ListAtExtends(h: Mem, h': Mem, a: nat, xs: seq<nat>, nil: nat)
    requires Extends(h, h')
    requires ListAt(h, a, xs, nil)
    ensures ListAt(h', a, xs, nil)
    decreases |xs|
  {
    if |xs| > 0 {
      ListAtExtends(h, h', h[a].v.cdr, xs[1..], nil);
    }
  }

  /**
   * Builds pairs for `xs` from the last element to the first, each in a freshly
   * allocated cell, the first pair pointing at `last`; returns the head address.
   */
  function BuildChain(h: Mem, xs: seq<nat>, last: nat): (r: (nat, Mem))
    ensures Extends(h, r.1)
    ensures |xs| == 0 ==> r == (last, h)
    decreases |xs|
  {
    if |xs| == 0 then (last, h)
    else
      var p := AllocStore(h, Pair(xs[|xs| - 1], last));
      BuildChain(p.1, xs[..|xs| - 1], p.0)
  }

  /** A built chain spells `xs` followed by whatever list `last` already spelled. */
  lemma {:induction false} BuildChainSpells(h: Mem, xs: seq<nat>, last: nat, tail: seq<nat>, nil: nat)
    requires ListAt(h, last, tail, nil)
    ensures ListAt(BuildChain(h, xs, last).1, BuildChain(h, xs, last).0, xs + tail, nil)
    decreases |xs|
  {
    if |xs| == 0 {
      assert xs + tail == tail;
    } else {
      var x := xs[|xs| - 1];
      var p := AllocStore(h, Pair(x, last));
      ListAtExtends(h, p.1, last, tail, nil);
      assert ([x] + tail)[1..] == tail;
      assert ListAt(p.1, p.0, [x] + tail, nil);
      BuildChainSpells(p.1, xs[..|xs| - 1], p.0, [x] + tail, nil);
      assert xs[..|xs| - 1] + ([x] + tail) == xs + tail;
    }
  }

  /** Building from the empty-list address yields a proper list of exactly `xs`. */
  lemma {:induction false} BuildChainIsList(h: Mem, xs: seq<nat>, nil: nat)
    ensures ListAt(BuildChain(h, xs, nil).1, BuildChain(h, xs, nil).0, xs, nil)
  {
    BuildChainSpells(h, xs, nil, [], nil);
    assert xs + [] == xs;
  }

  /**
   * Walks a pair chain collecting cars until a cell holding the empty list;
   * any other cell, or running out of `fuel` pairs, is a failure.
   */
  function ReadList(h: Mem, a: nat, fuel: nat): (r: Option<seq<nat>>)
    ensures r.Some? ==> |r.value| <= fuel
    decreases fuel
  {
    if a >= |h| then None
    else if h[a] == Val(EmptyList) then Some([])
    else if h[a].Val? && h[a].v.Pair? && fuel > 0 then
      match ReadList(h, h[a].v.cdr, fuel - 1)
      case Some(rest) => Some([h[a].v.car] + rest)
      case None => None
    else None
  }

  predicate IsEmptyListCell(h: Mem, nil: nat) {
    nil < |h| && h[nil] == Val(EmptyList)
  }

  /** Reading a proper list back yields its cars in order. */
  lemma {:induction false} ReadListOfChain(h: Mem, a: nat, xs: seq<nat>, nil: nat, fuel: nat)
    requires ListAt(h, a, xs, nil) && IsEmptyListCell(h, nil)
    requires |xs| <= fuel
    ensures ReadList(h, a, fuel) == Some(xs)
    decreases |xs|
  {
    if |xs| > 0 {
      ReadListOfChain(h, h[a].v.cdr, xs[1..], nil, fuel - 1);
      assert [xs[0]] + xs[1..] == xs;
    }
  }

  /** From a given address, a proper list has only one possible length. */
  lemma {:induction false} ListLengthUnique(h: Mem, a: nat, xs: seq<nat>, ys: seq<nat>, nil: nat)
    requires IsEmptyListCell(h, nil)
    requires ListAt(h, a, xs, nil) && ListAt(h, a, ys, nil)
    ensures |xs| == |ys|
    decreases |xs|
  {
    if |xs| > 0 && |ys| > 0 {
      ListLengthUnique(h, h[a].v.cdr, xs[1..], ys[1..], nil);
    }
  }

  /** The pair cells of a chain, head first. */
  function ChainCells(h: Mem, a: nat, xs: seq<nat>, nil: nat): (cs: set<nat>)
    requires ListAt(h, a, xs, nil)
    ensures forall c :: c in cs ==> c < |h| && h[c].Val? && h[c].v.Pair?
    decreases |xs|
  {
    if |xs| == 0 then {} else {a} + ChainCells(h, h[a].v.cdr, xs[1..], nil)
  }

  /** The chain starting one pair further down also reaches `nil` after |xs| - k pairs. */
  lemma {:induction false} ChainMemberIsList(h: Mem, a: nat, xs: seq<nat>, nil: nat, c: nat)
    requires ListAt(h, a, xs, nil)
    requires c in ChainCells(h, a, xs, nil)
    ensures exists ys :: |ys| <= |xs| && ListAt(h, c, ys, nil) && (c != a ==> |ys| < |xs|)
    decreases |xs|
  {
    if c == a {
      assert ListAt(h, c, xs, nil);
    } else {
      ChainMemberIsList(h, h[a].v.cdr, xs[1..], nil, c);
    }
  }

  /** A proper list never revisits a cell, so it has exactly |xs| pair cells. */
  lemma {:induction false} ChainCellsCount(h: Mem, a: nat, xs: seq<nat>, nil: nat)
    requires ListAt(h, a, xs, nil) && IsEmptyListCell(h, nil)
    ensures |ChainCells(h, a, xs, nil)| == |xs|
    decreases |xs|
  {
    if |xs| > 0 {
      var d := h[a].v.cdr;
      ChainCellsCount(h, d, xs[1..], nil);
      if a in ChainCells(h, d, xs[1..], nil) {
        ChainMemberIsList(h, d, xs[1..], nil, a);
        var ys :| |ys| <= |xs[1..]| && ListAt(h, a, ys, nil);
        ListLengthUnique(h, a, xs, ys, nil);
        assert false;
      }
    }
  }

  /** The addresses below `n`. */
  function Below(n: nat): (r: set<nat>)
    ensures forall j: nat :: j in r <==> j < n
    ensures |r| == n
  {
    if n == 0 then {} else
      var r := Below(n - 1);
      assert n - 1 !in r;
      r + {n - 1}
  }

  lemma {:induction false} SubsetSize(a: set<nat>, b: set<nat>)
    requires a <= b
    ensures |a| <= |b|
  {
    assert b == a + (b - a);
  }

  /** A proper list fits in the heap beside its empty-list cell: it has fewer pairs than cells. */
  lemma {:induction false} ChainShorterThanHeap(h: Mem, a: nat, xs: seq<nat>, nil: nat)
    requires ListAt(h, a, xs, nil) && IsEmptyListCell(h, nil)
    ensures |xs| < |h|
  {
    var cs := ChainCells(h, a, xs, nil);
    var all := Below(|h|);
    ChainCellsCount(h, a, xs, nil);
    assert cs + {nil} <= all;
    assert nil !in cs;
    assert |cs + {nil}| == |xs| + 1;
    SubsetSize(cs + {nil}, all);
  }
}
