/** The chain of powers that `factor` builds through a moving slot. */
module PowerChain {
  import opened TinyExpr
  import opened Grammar
  import opened TreeNodes

  // ----- The chain as a value -----

  /** A node above the slot: a power with its base, or a unary operator. */
  datatype Cell<N> = PowCell(base: Expr<N>) | UnaryCell(fn: Fn)

  /** The tree of a chain with `e` in its slot. */
  ghost function Plug<N>(spine: seq<Cell<N>>, e: Expr<N>): Expr<N> {
    if spine == [] then e
    else match spine[0]
      case PowCell(b) => Grammar.Binary(Pow, b, Plug(spine[1..], e))
      case UnaryCell(fn) => Expr.Function(fn, true, [Plug(spine[1..], e)])
  }

  lemma {:induction false} PlugAppend<N>(s1: seq<Cell<N>>, s2: seq<Cell<N>>, e: Expr<N>)
    ensures Plug(s1 + s2, e) == Plug(s1, Plug(s2, e))
  {
    if s1 == [] {
      assert s1 + s2 == s2;
    } else {
      assert (s1 + s2)[1..] == s1[1..] + s2;
      PlugAppend(s1[1..], s2, e);
    }
  }

  /** What `factor` still has to do: `spine` is built, `tail` is in its slot. */
  ghost function Finish<N>(left: Prefix, spine: seq<Cell<N>>, tail: Expr<N>, input: Input<N>, depth: nat): Parsed<N> {
    if !Continues(FACTOR, input.Current()) then Parsed(Apply(left, Plug(spine, tail)), input)
    else
      var exponent := ParseFactor(input.Next(), depth);
      if exponent.tree.Null? then exponent
      else Parsed(Apply(left, Plug(spine + [PowCell(tail)], exponent.tree)), exponent.input)
  }

  /** The cells one exponent adds: the power, and the unary operator in front of the exponent. */
  ghost function Grow<N>(tail: Expr<N>, prefix: Prefix): seq<Cell<N>> {
    match prefix
    case NoPrefix => [PowCell(tail)]
    case Prefix(fn) => [PowCell(tail), UnaryCell(fn)]
  }

  lemma FinishStart<N>(input: Input<N>, depth: nat)
    ensures var p := ParsePower(input, depth);
            !p.base.Null? ==> ParseFactor(input, depth) == Finish(p.prefix, [], p.base, p.input, depth)
  {
    var p := ParsePower(input, depth);
    if !p.base.Null? && Continues(FACTOR, p.input.Current()) {
      var e := ParseFactor(p.input.Next(), depth).tree;
      assert [] + [PowCell(p.base)] == [PowCell(p.base)];
      assert Plug([PowCell(p.base)], e) == Grammar.Binary(Pow, p.base, e);
    }
  }

  /** Reading one more exponent into the slot keeps the tree of the recursive rule. */
  lemma FinishStep<N>(left: Prefix, spine: seq<Cell<N>>, tail: Expr<N>, input: Input<N>, depth: nat)
    requires Continues(FACTOR, input.Current())
    ensures var p := ParsePower(input.Next(), depth);
            var r := Finish(left, spine, tail, input, depth);
            if p.base.Null? then r == Parsed(Null, p.input)
            else r == Finish(left, spine + Grow(tail, p.prefix), p.base, p.input, depth)
  {
    var p := ParsePower(input.Next(), depth);
    if !p.base.Null? {
      var more := Continues(FACTOR, p.input.Current());
      var rest := if more then ParseFactor(p.input.Next(), depth).tree else p.base;
      var inner := if more then Grammar.Binary(Pow, p.base, rest) else p.base;
      var grown := Grow(tail, p.prefix);
      PlugAppend(spine, [PowCell(tail)], Apply(p.prefix, inner));
      PlugAppend(spine, grown, inner);
      PlugAppend(spine + grown, [PowCell(p.base)], rest);
      PlugAppend(spine, grown, rest);
      assert Plug([PowCell(p.base)], rest) == Grammar.Binary(Pow, p.base, rest);
      assert Plug(grown, inner) == Grammar.Binary(Pow, tail, Apply(p.prefix, inner)) by {
        if p.prefix.Prefix? {
          assert grown[1..] == [UnaryCell(p.prefix.fn)];
          assert Plug([UnaryCell(p.prefix.fn)], inner) == Apply(p.prefix, inner);
        }
      }
    }
  }

  /** What the loop of `factor` does: read exponents while there is a "^". */
  ghost function Iterate<N>(left: Prefix, spine: seq<Cell<N>>, tail: Expr<N>, input: Input<N>, depth: nat): Parsed<N>
    decreases |input.rest|
  {
    if !Continues(FACTOR, input.Current()) then Parsed(Apply(left, Plug(spine, tail)), input)
    else
      var p := ParsePower(input.Next(), depth);
      if p.base.Null? then Parsed(Null, p.input)
      else Iterate(left, spine + Grow(tail, p.prefix), p.base, p.input, depth)
  }

  lemma IterateStep<N>(left: Prefix, spine: seq<Cell<N>>, tail: Expr<N>, input: Input<N>, depth: nat)
    ensures var r := Iterate(left, spine, tail, input, depth);
            var p := ParsePower(input.Next(), depth);
            if !Continues(FACTOR, input.Current()) then r == Parsed(Apply(left, Plug(spine, tail)), input)
            else if p.base.Null? then r == Parsed(Null, p.input)
            else r == Iterate(left, spine + Grow(tail, p.prefix), p.base, p.input, depth)
  {
  }

  lemma {:induction false} IterateFinishes<N>(left: Prefix, spine: seq<Cell<N>>, tail: Expr<N>, input: Input<N>, depth: nat)
    ensures Iterate(left, spine, tail, input, depth) == Finish(left, spine, tail, input, depth)
    decreases |input.rest|
  {
    if Continues(FACTOR, input.Current()) {
      FinishStep(left, spine, tail, input, depth);
      var p := ParsePower(input.Next(), depth);
      if !p.base.Null? {
        IterateFinishes(left, spine + Grow(tail, p.prefix), p.base, p.input, depth);
      }
    }
  }

  /** Inserting every exponent into the moving slot builds the tree of the recursive
      rule factor = prefix base | prefix (base "^" factor). */
  lemma SlotLoopIsRecursiveRule<N>(input: Input<N>, depth: nat)
    ensures var p := ParsePower(input, depth);
            !p.base.Null? ==> ParseFactor(input, depth) == Iterate(p.prefix, [], p.base, p.input, depth)
  {
    var p := ParsePower(input, depth);
    FinishStart(input, depth);
    IterateFinishes(p.prefix, [], p.base, p.input, depth);
  }

  // ----- The chain on the heap -----

  /** The nodes of a chain, root first.  They are rewired while the chain grows, so
      they say nothing about their own trees yet; `sides[k]` are the nodes of the
      base hanging off cell `k`, `all` are all nodes including the tree in the slot. */
  datatype Chain<!N> = Chain(all: set<Node<N>>, cells: seq<Node<N>>, sides: seq<set<Node<N>>>, spine: seq<Cell<N>>)
  {
    /** No node of the chain is shared. */
    ghost predicate IsApart() {
      && |cells| == |sides| == |spine|
      && (forall j, k :: 0 <= j < k < |cells| ==> cells[j] != cells[k] && sides[j] !! sides[k])
      && (forall j, k :: 0 <= j < |cells| && 0 <= k < |cells| ==> cells[j] !in sides[k])
    }

    ghost function Below(hole: Node<N>, k: nat): Node<N> {
      if k + 1 < |cells| then cells[k + 1] else hole
    }

    ghost function Append(n: Node<N>, side: set<Node<N>>, cell: Cell<N>): Chain<N> {
      Chain(all, cells + [n], sides + [side], spine + [cell])
    }
  }

  /** The chain down to the slot that holds `hole`. */
  ghost predicate IsOpen<N>(c: Chain<N>, hole: Node<N>)
    reads c.all
  {
    && c.IsApart()
    && (forall k :: 0 <= k < |c.cells| ==>
          && c.cells[k] in c.all && c.sides[k] <= c.all
          && IsCell(c.cells[k], c.sides[k], c.spine[k], c.Below(hole, k)))
  }

  /** A chain with a finished tree in its slot. */
  ghost predicate IsChain<N>(c: Chain<N>, tail: Node<N>)
    reads c.all
  {
    && IsOpen(c, tail)
    && tail in c.all && tail.repr <= c.all && tail.Valid()
    && (forall k :: 0 <= k < |c.cells| ==> c.cells[k] !in tail.repr && c.sides[k] !! tail.repr)
  }

  ghost predicate IsCell<N>(n: Node<N>, side: set<Node<N>>, cell: Cell<N>, child: Node<N>)
    reads n, side
  {
    match cell
    case PowCell(b) =>
      && n.head == FunctionHead(Pow, true) && |n.params| == 2 && n.params[1] == child
      && n.params[0] != null && n.params[0] in side && n.params[0].repr == side
      && n.params[0].Valid() && n.params[0].tree == b
    case UnaryCell(fn) => n.head == FunctionHead(fn, true) && n.params == [child] && side == {}
  }

  // ----- Closing a finished chain -----

  /** Let a cell say which tree it is, once its child does. */
  ghost method CloseCell<N>(n: Node<N>, side: set<Node<N>>, cell: Cell<N>, child: Node<N>)
    requires IsCell(n, side, cell, child)
    requires child.Valid() && n !in side && n !in child.repr && side !! child.repr
    modifies n
    ensures n.Valid() && n.repr == {n} + side + child.repr && n.head == old(n.head) && n.params == old(n.params)
    ensures n.tree == match cell
                      case PowCell(b) => Grammar.Binary(Pow, b, child.tree)
                      case UnaryCell(fn) => Expr.Function(fn, true, [child.tree])
  {
    n.tree := match cell
      case PowCell(b) => Grammar.Binary(Pow, b, child.tree)
      case UnaryCell(fn) => Expr.Function(fn, true, [child.tree]);
    n.repr := {n} + side + child.repr;
  }

  /** The cells from `k` on are closed; the tree they form is `root`. */
  ghost predicate IsClosedFrom<N>(c: Chain<N>, tail: Node<N>, k: nat, root: Node<N>, tree: Expr<N>)
    reads c.all
  {
    && |c.cells| == |c.sides| == |c.spine| && k <= |c.cells|
    && root == (if k < |c.cells| then c.cells[k] else tail)
    && root in c.all && root.repr <= c.all && root.Valid() && root.tree == Plug(c.spine[k..], tree)
    && (forall j :: 0 <= j < k ==>
          && c.cells[j] in c.all && c.sides[j] <= c.all && c.cells[j] !in root.repr && c.sides[j] !! root.repr
          && IsCell(c.cells[j], c.sides[j], c.spine[j], c.Below(tail, j)))
  }

  ghost method CloseNext<N>(c: Chain<N>, tail: Node<N>, k: nat, root: Node<N>, tree: Expr<N>)
    requires k < |c.cells| && c.IsApart()
    requires IsClosedFrom(c, tail, k + 1, root, tree)
    modifies c.cells[k]
    ensures IsClosedFrom(c, tail, k, c.cells[k], tree)
  {
    assert c.spine[k..][1..] == c.spine[k + 1..];
    CloseCell(c.cells[k], c.sides[k], c.spine[k], root);
  }

  /** The chain is finished: let its nodes say which trees they are. */
  ghost method CloseChain<N>(c: Chain<N>, tail: Node<N>) returns (root: Node<N>)
    requires IsChain(c, tail)
    modifies c.cells
    ensures root == if c.cells == [] then tail else c.cells[0]
    ensures root.Valid() && root.repr <= c.all && root.tree == Plug(c.spine, old(tail.tree))
  {
    root := tail;
    var tree := tail.tree;
    var k := |c.cells|;
    assert c.spine[k..] == [];
    while k > 0
      invariant IsClosedFrom(c, tail, k, root, tree)
    {
      k := k - 1;
      CloseNext(c, tail, k, root, tree);
      root := c.cells[k];
    }
    assert c.spine[0..] == c.spine;
  }

  // ----- Inserting an exponent through the slot -----

  /** The root of the tree and the place the next exponent goes to, as `factor` keeps them. */
  ghost predicate IsSlot<N>(c: Chain<N>, tail: Node<N>, root: Node<N>, slot: Node?<N>, index: nat) {
    && |c.cells| == |c.spine|
    && root == (if c.cells == [] then tail else c.cells[0])
    && (slot == null <==> c.cells == [])
    && (c.cells != [] ==>
          slot == c.cells[|c.cells| - 1] && index == if c.spine[|c.spine| - 1].PowCell? then 1 else 0)
  }

  lemma AppendApart<N>(c: Chain<N>, n: Node<N>, side: set<Node<N>>, cell: Cell<N>)
    requires c.IsApart() && n !in side
    requires forall k :: 0 <= k < |c.cells| ==>
               c.cells[k] != n && c.sides[k] !! side && c.cells[k] !in side && n !in c.sides[k]
    ensures c.Append(n, side, cell).IsApart()
  {
  }

  lemma AppendCell<N>(c: Chain<N>, n: Node<N>, side: set<Node<N>>, cell: Cell<N>, hole: Node<N>)
    requires IsOpen(c, n)
    requires n in c.all && side <= c.all && n !in side && IsCell(n, side, cell, hole)
    requires forall k :: 0 <= k < |c.cells| ==>
               c.cells[k] != n && c.sides[k] !! side && c.cells[k] !in side && n !in c.sides[k]
    ensures IsOpen(c.Append(n, side, cell), hole)
  {
    AppendApart(c, n, side, cell);
    var c' := c.Append(n, side, cell);
    forall k | 0 <= k < |c'.cells|
      ensures c'.cells[k] in c'.all && c'.sides[k] <= c'.all
      ensures IsCell(c'.cells[k], c'.sides[k], c'.spine[k], c'.Below(hole, k))
    {
      if k < |c.cells| {
        assert c'.Below(hole, k) == c.Below(n, k);
        assert IsCell(c.cells[k], c.sides[k], c.spine[k], c.Below(n, k));
      }
    }
  }

  lemma Enlarge<N>(c: Chain<N>, more: set<Node<N>>, hole: Node<N>)
    requires IsOpen(c, hole) && c.all <= more
    ensures IsOpen(c.(all := more), hole)
  {
    var c' := c.(all := more);
    assert forall k :: 0 <= k < |c.cells| ==> c'.Below(hole, k) == c.Below(hole, k);
  }

  /** *slot = pow(*slot, p) */
  method InsertAtSlot<N>(slot: Node<N>, index: nat, p: Node<N>, ghost c: Chain<N>, ghost tail: Node<N>)
    returns (insert: Node<N>)
    requires IsOpen(c, tail) && c.cells != [] && slot == c.cells[|c.cells| - 1]
    requires index == if c.spine[|c.spine| - 1].PowCell? then 1 else 0
    requires tail.Valid() && p.Valid() && tail.repr !! p.repr && slot !in tail.repr && slot !in p.repr
    modifies slot
    ensures fresh(insert) && insert.head == FunctionHead(Pow, true) && insert.params == [tail, p]
    ensures IsOpen(c, insert)
  {
    ghost var last := |c.cells| - 1;
    assert IsCell(slot, c.sides[last], c.spine[last], c.Below(tail, last));
    insert := new Node<N>.Binary(Pow, slot.params[index], p);
    slot.params := slot.params[index := insert];
  }

  /** The chain with the exponent `p` in its slot. */
  ghost function Inserted<N>(c: Chain<N>, insert: Node<N>, p: set<Node<N>>, side: set<Node<N>>, base: Expr<N>): Chain<N> {
    c.(all := c.all + p + {insert}).Append(insert, side, PowCell(base))
  }

  /** *slot = pow(*slot, p), or the first power of the chain. */
  method InsertPower<N>(root: Node<N>, slot: Node?<N>, index: nat, p: Node<N>, ghost c: Chain<N>, ghost tail: Node<N>)
    returns (root': Node<N>, insert: Node<N>)
    requires IsChain(c, tail) && IsSlot(c, tail, root, slot, index)
    requires p.Valid() && p.repr !! c.all
    modifies if slot == null then {} else {slot}
    ensures fresh(insert)
    ensures var c' := Inserted(c, insert, p.repr, old(tail.repr), old(tail.tree));
            IsChain(c', p) && IsSlot(c', p, root', insert, 1)
  {
    if slot != null {
      insert := InsertAtSlot(slot, index, p, c, tail);
      root' := root;
    } else {
      insert := new Node<N>.Binary(Pow, root, p);
      root' := insert;
    }
    ExtendChain(c, tail, insert, p);
  }

  /** The power node in the slot, with the old contents as its base, extends the chain. */
  lemma ExtendChain<N>(c: Chain<N>, tail: Node<N>, insert: Node<N>, p: Node<N>)
    requires IsOpen(c, insert) && insert !in c.all && insert !in p.repr
    requires tail in c.all && tail.repr <= c.all && tail.Valid() && p.Valid() && p.repr !! c.all
    requires forall k :: 0 <= k < |c.cells| ==> c.cells[k] !in tail.repr && c.sides[k] !! tail.repr
    requires insert.head == FunctionHead(Pow, true) && insert.params == [tail, p]
    ensures IsChain(Inserted(c, insert, p.repr, tail.repr, tail.tree), p)
  {
    Enlarge(c, c.all + p.repr + {insert}, insert);
    AppendCell(c.(all := c.all + p.repr + {insert}), insert, tail.repr, PowCell(tail.tree), p);
  }

  /** The exponent just inserted is a unary operator: the slot moves inside it. */
  lemma MoveSlotInside<N>(c: Chain<N>, p: Node<N>, fn: Fn)
    requires IsChain(c, p)
    requires p.head == FunctionHead(fn, true) && |p.params| == 1 && p.params[0] != null
    ensures IsChain(c.Append(p, {}, UnaryCell(fn)), p.params[0])
  {
    AppendCell(c, p, {}, UnaryCell(fn), p.params[0]);
  }

  /** The slot of the next exponent: the one just inserted, or inside it. */
  method MoveSlot<N>(root: Node<N>, insert: Node<N>, p: Node<N>, unary: bool, ghost prefix: Prefix, ghost base: Expr<N>,
                     ghost c: Chain<N>)
    returns (slot: Node<N>, index: nat, ghost c': Chain<N>, ghost tail: Node<N>)
    requires IsChain(c, p) && IsSlot(c, p, root, insert, 1) && c.cells != []
    requires p.tree == Apply(prefix, base) && unary == prefix.Prefix?
    requires unary ==> p.head == FunctionHead(prefix.fn, true)
    requires !base.Null?
    ensures IsChain(c', tail) && IsSlot(c', tail, root, slot, index) && c'.all == c.all && tail.tree == base
    ensures c'.spine == c.spine + if unary then [UnaryCell(prefix.fn)] else []
  {
    slot, index, c', tail := insert, 1, c, p;
    if unary {
      MoveSlotInside(c, p, prefix.fn);
      slot, index := p, 0;
      c', tail := c.Append(p, {}, UnaryCell(prefix.fn)), p.params[0];
    }
  }

  lemma GrownSpine<N>(spine: seq<Cell<N>>, tail: Expr<N>, prefix: Prefix)
    ensures spine + [PowCell(tail)] + (if prefix.Prefix? then [UnaryCell(prefix.fn)] else []) == spine + Grow(tail, prefix)
  {
  }

  /** Insert one exponent and move the slot to where the next one goes. */
  method InsertExponent<N>(root: Node<N>, slot: Node?<N>, index: nat, p: Node<N>, unary: bool, ghost prefix: Prefix,
                           ghost base: Expr<N>, ghost c: Chain<N>, ghost tail: Node<N>)
    returns (root': Node<N>, slot': Node?<N>, index': nat, ghost c': Chain<N>, ghost tail': Node<N>)
    requires IsChain(c, tail) && IsSlot(c, tail, root, slot, index)
    requires p.Valid() && p.repr !! c.all && p.tree == Apply(prefix, base) && !base.Null?
    requires unary == prefix.Prefix?
    requires unary ==> p.head == FunctionHead(prefix.fn, true)
    modifies if slot == null then {} else {slot}
    ensures IsChain(c', tail') && IsSlot(c', tail', root', slot', index') && fresh(c'.all - c.all - p.repr)
    ensures c'.spine == c.spine + Grow(old(tail.tree), prefix) && tail'.tree == base
  {
    ghost var left, side := tail.tree, tail.repr;
    var insert;
    root', insert := InsertPower(root, slot, index, p, c, tail);
    ghost var grown := Inserted(c, insert, p.repr, side, left);
    slot', index', c', tail' := MoveSlot(root', insert, p, unary, prefix, base, grown);
    GrownSpine(c.spine, left, prefix);
  }

  /** The chain is complete: close it and put the unary operators back on it. */
  method FinishChain<N>(root: Node<N>, slot: Node?<N>, index: nat, left: Prefix, ghost c: Chain<N>, ghost tail: Node<N>)
    returns (ret: Node<N>)
    requires IsChain(c, tail) && IsSlot(c, tail, root, slot, index)
    modifies c.all
    ensures ret.Valid() && fresh(ret.repr - c.all)
    ensures ret.tree == Apply(left, Plug(c.spine, old(tail.tree)))
  {
    ghost var closed := CloseChain(c, tail);
    ret := root;
    if left.Prefix? {
      ret := new Node<N>.Unary(left.fn, root);
    }
  }
}
