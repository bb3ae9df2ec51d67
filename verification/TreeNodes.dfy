/** The tree nodes tinyexpr allocates, rewires and overwrites in place. */
module TreeNodes {
  import opened TinyExpr

  /** The type field of a node together with its union. */
  datatype Head<N> =
    | ConstantHead(value: N)
    | VariableHead(slot: nat)
    | FunctionHead(fn: Fn, pure: bool)
    | PlaceholderHead

  class Node<N> {
    var head: Head<N>
    var params: seq<Node?<N>>
    ghost var tree: Expr<N>         // the tree below this node, as a value
    ghost var repr: set<Node<N>>    // the nodes it consists of

    /** The parameters are trees of their own, no node is shared. */
    ghost predicate Owns()
      reads this, repr
    {
      && this in repr
      && (forall i :: 0 <= i < |params| && params[i] != null ==>
            params[i] in repr && params[i].repr < repr && this !in params[i].repr)
      && (forall i, j :: 0 <= i < j < |params| && params[i] != null && params[j] != null ==>
            params[i].repr !! params[j].repr)
    }

    /** `tree` is what the node and its parameters say. */
    ghost predicate Shows()
      requires Owns()
      reads this, repr
    {
      match head
      case ConstantHead(v) => tree == Constant(v)
      case VariableHead(s) => tree == Variable(s)
      case PlaceholderHead => tree == Placeholder
      case FunctionHead(fn, pure) =>
        && tree.Function? && tree.fn == fn && tree.pure == pure && |tree.args| == |params|
        && forall i :: 0 <= i < |params| ==> tree.args[i] == if params[i] == null then Null else params[i].tree
    }

    ghost predicate Valid()
      reads this, repr
      decreases repr
    {
      && Owns() && Shows()
      && forall i :: 0 <= i < |params| && params[i] != null ==> params[i].Valid()
    }

    constructor Leaf(head: Head<N>)
      requires !head.FunctionHead?
      ensures Valid() && fresh(repr)
      ensures this.head == head
      ensures match head {
                case ConstantHead(v) => tree == Constant(v)
                case VariableHead(s) => tree == Variable(s)
                case _ => tree == Placeholder
              }
    {
      this.head := head;
      params := [];
      tree := match head case ConstantHead(v) => Constant(v) case VariableHead(s) => Variable(s) case _ => Placeholder;
      repr := {this};
    }

    /** A function node whose parameters are still NULL. */
    constructor Empty(fn: Fn, pure: bool, arity: nat)
      ensures Valid() && fresh(repr)
      ensures head == FunctionHead(fn, pure) && params == seq(arity, _ => null)
      ensures tree == Expr.Function(fn, pure, seq(arity, _ => Null))
    {
      head := FunctionHead(fn, pure);
      params := seq(arity, _ => null);
      tree := Expr.Function(fn, pure, seq(arity, _ => Null));
      repr := {this};
    }

    constructor Unary(fn: Fn, a: Node<N>)
      requires a.Valid()
      ensures Valid() && fresh(repr - a.repr)
      ensures head == FunctionHead(fn, true) && params == [a]
      ensures tree == Expr.Function(fn, true, [a.tree])
    {
      head := FunctionHead(fn, true);
      params := [a];
      tree := Expr.Function(fn, true, [a.tree]);
      repr := {this} + a.repr;
    }

    constructor Binary(fn: Fn, l: Node<N>, r: Node<N>)
      requires l.Valid() && r.Valid() && l.repr !! r.repr
      ensures Valid() && fresh(repr - l.repr - r.repr)
      ensures head == FunctionHead(fn, true) && params == [l, r]
      ensures tree == Expr.Function(fn, true, [l.tree, r.tree])
    {
      head := FunctionHead(fn, true);
      params := [l, r];
      tree := Expr.Function(fn, true, [l.tree, r.tree]);
      repr := {this} + l.repr + r.repr;
    }

    /** Fill in a parameter that is still NULL. */
    method SetParam(i: nat, p: Node<N>)
      requires Valid() && head.FunctionHead? && i < |params| && params[i] == null
      requires p.Valid() && p.repr !! repr
      modifies this
      ensures Valid() && head == old(head) && params == old(params)[i := p]
      ensures tree == old(tree).(args := old(tree.args)[i := p.tree])
      ensures repr == old(repr) + p.repr
    {
      params := params[i := p];
      tree := tree.(args := tree.args[i := p.tree]);
      repr := repr + p.repr;
    }

    /** te_eval. */
    method TeEval(ar: Arith<N>, slots: seq<N>) returns (v: N)
      requires Valid()
      ensures v == Eval(ar, slots, tree)
      decreases repr
    {
      match head
      case ConstantHead(value) => v := value;
      case VariableHead(slot) => v := if slot < |slots| then slots[slot] else ar.nan;
      case PlaceholderHead => v := ar.nan;
      case FunctionHead(fn, _) =>
        var values: seq<N> := [];
        ghost var args := tree.args;
        for i := 0 to |params|
          invariant values == seq(i, j requires 0 <= j < i => Eval(ar, slots, args[j]))
        {
          var value := ar.nan;
          if params[i] != null {
            value := params[i].TeEval(ar, slots);
          }
          values := values + [value];
        }
        v := ar.apply(fn, values);
    }

    /** optimize: fold the tree in place. */
    method Optimize(ar: Arith<N>)
      requires Valid() && tree.WellFormed()
      modifies repr
      ensures Valid() && repr <= old(repr)
      ensures tree == Fold(ar, old(tree))
      decreases repr, 1
    {
      if head.FunctionHead? && head.pure {
        ghost var args := tree.args;
        ghost var folded := seq(|args|, j requires 0 <= j < |args| => Fold(ar, args[j]));
        FoldFunction(ar, head.fn, args, folded);
        var known := OptimizeParams(ar);
        tree := Expr.Function(head.fn, head.pure, folded);
        if known {
          var value := TeEval(ar, []);
          head, params := ConstantHead(value), [];
          tree, repr := Constant(value), {this};
        }
      }
    }

    /** Fold all parameters; true if all of them are constants now. */
    method OptimizeParams(ar: Arith<N>) returns (known: bool)
      requires Valid() && tree.WellFormed() && tree.Function?
      modifies repr - {this}
      ensures Owns()
      ensures forall j :: 0 <= j < |params| ==> params[j] != null && params[j].Valid()
      ensures forall j :: 0 <= j < |params| ==> params[j].tree == Fold(ar, tree.args[j])
      ensures known == forall j :: 0 <= j < |params| ==> params[j].tree.Constant?
      decreases repr, 0
    {
      known := true;
      for i := 0 to |params|
        invariant Owns()
        invariant forall j :: 0 <= j < |params| ==> params[j] != null && params[j].Valid()
        invariant forall j :: 0 <= j < |params| ==> params[j].repr <= old(params[j].repr)
        invariant forall j :: 0 <= j < i ==> params[j].tree == Fold(ar, tree.args[j])
        invariant forall j :: i <= j < |params| ==> params[j].tree == tree.args[j]
        invariant known == forall j :: 0 <= j < i ==> params[j].tree.Constant?
      {
        label before:
        params[i].Optimize(ar);
        assert forall j :: 0 <= j < |params| && j != i ==> unchanged@before(params[j]);
        if !params[i].head.ConstantHead? {
          known := false;
        }
      }
    }
  }
}
