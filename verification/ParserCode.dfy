/** The recursive-descent parser of tinyexpr: a mutable state over the tokens and
    freshly allocated tree nodes, proved against the functions of `Grammar`. */
module ParserCode {
  import opened TinyExpr
  import opened Grammar
  import opened TreeNodes
  import opened PowerChain

  /** A node returned for a parsed tree: NULL for Null, else freshly allocated. */
  ghost predicate Built<N>(n: Node?<N>, tree: Expr<N>)
    reads n, if n == null then {} else n.repr
  {
    if n == null then tree.Null? else !tree.Null? && n.Valid() && n.tree == tree
  }

  class Parser<N> {
    const tokens: seq<Token<N>>
    var next: nat                 // the current token
    var failed: bool              // the current token was replaced by TOK_ERROR
    var depth: nat
    var appliedUnary: bool

    ghost predicate Valid()
      reads this
    {
      next <= |tokens|
    }

    /** The input the parser still has to read. */
    ghost function Left(): Input<N>
      requires Valid()
      reads this
    {
      Input(tokens[next..], failed)
    }

    constructor (tokens: seq<Token<N>>)
      ensures Valid() && this.tokens == tokens && Left() == Input(tokens, false) && depth == 0
    {
      this.tokens := tokens;
      next, failed, depth, appliedUnary := 0, false, 0, false;
    }

    function Current(): (t: Token<N>)
      requires Valid()
      reads this
      ensures t == Left().Current()
    {
      if failed then Error else if next == |tokens| then End else tokens[next]
    }

    method NextToken()
      requires Valid()
      modifies this`next
      ensures Valid() && Left() == old(Left()).Next()
      ensures next == if old(next) < |tokens| then old(next) + 1 else old(next)
    {
      if next < |tokens| {
        next := next + 1;
      }
    }

    method Base() returns (ret: Node?<N>)
      requires Valid()
      modifies this
      ensures Valid() && depth == old(depth) && next >= old(next)
      ensures var r := ParseBase(old(Left()), depth); Built(ret, r.tree) && Left() == r.input
      ensures ret != null ==> fresh(ret.repr)
      decreases |tokens| - next, 3
    {
      if depth >= MAX_DEPTH {
        failed := true;
        return null;
      }
      depth := depth + 1;
      ret := BaseImpl();
      depth := depth - 1;
    }

    method BaseImpl() returns (ret: Node?<N>)
      requires Valid() && 0 < depth <= MAX_DEPTH
      modifies this
      ensures Valid() && depth == old(depth) && next >= old(next)
      ensures var r := ParseBase(old(Left()), depth - 1); Built(ret, r.tree) && Left() == r.input
      ensures ret != null ==> fresh(ret.repr)
      decreases |tokens| - next, 2
    {
      var t := Current();
      if t.Number? {
        ret := new Node<N>.Leaf(ConstantHead(t.value));
        NextToken();
      } else if t.VariableName? {
        ret := new Node<N>.Leaf(VariableHead(t.slot));
        NextToken();
      } else if t.FunctionName? {
        ret := Call(t.name, t.params, t.pure);
      } else if t.Open? {
        NextToken();
        ret := Level(0);
        if ret != null {
          if !Current().Close? {
            failed := true;
          } else {
            NextToken();
          }
        }
      } else {
        ret := new Node<N>.Leaf(PlaceholderHead);
        failed := true;
      }
    }

    /** A function name and its parameters. */
    method Call(name: string, params: nat, pure: bool) returns (ret: Node?<N>)
      requires Valid() && 0 < depth <= MAX_DEPTH
      requires Current() == FunctionName(name, params, pure)
      modifies this
      ensures Valid() && depth == old(depth) && next >= old(next)
      ensures var r := ParseBase(old(Left()), depth - 1); Built(ret, r.tree) && Left() == r.input
      ensures ret != null ==> fresh(ret.repr)
      decreases |tokens| - next, 1
    {
      if params == 1 {
        ret := CallOne(name, pure);
        return;
      }
      var node := new Node<N>.Empty(Named(name, params), pure, params);
      ret := node;
      NextToken();
      if params == 0 {
        if Current().Open? {
          NextToken();
          if !Current().Close? {
            failed := true;
          } else {
            NextToken();
          }
        }
      } else if !Current().Open? {
        failed := true;
      } else {
        ret := Arguments(node, params);
      }
    }

    /** A function of one parameter, which needs no parentheses. */
    method CallOne(name: string, pure: bool) returns (ret: Node?<N>)
      requires Valid() && 0 < depth <= MAX_DEPTH
      requires Current() == FunctionName(name, 1, pure)
      modifies this
      ensures Valid() && depth == old(depth) && next >= old(next)
      ensures var r := ParseBase(old(Left()), depth - 1); Built(ret, r.tree) && Left() == r.input
      ensures ret != null ==> fresh(ret.repr)
      decreases |tokens| - next, 0
    {
      var node := new Node<N>.Empty(Named(name, 1), pure, 1);
      ret := node;
      NextToken();
      var arg := Power();
      if arg == null {
        return null;
      }
      node.SetParam(0, arg);
    }

    /** "(" expr {"," expr} ")" for a function of `arity` parameters. */
    method Arguments(node: Node<N>, arity: nat) returns (ret: Node?<N>)
      requires Valid() && Current().Open? && !failed
      requires node.Valid() && node.head.FunctionHead? && node.params == seq(arity, _ => null)
      requires node.head.fn.Arity() == arity && arity > 0
      modifies this, node
      ensures Valid() && depth == old(depth) && next >= old(next)
      ensures var r := ParseArgs(old(node.head.fn), old(node.head.pure), [], old(Left()), depth);
              Built(ret, r.tree) && Left() == r.input
      ensures ret != null ==> fresh(ret.repr - old(node.repr))
      decreases |tokens| - next, 30
    {
      ghost var fn, pure := node.head.fn, node.head.pure;
      ghost var result := ParseArgs(fn, pure, [], Left(), depth);
      assert node.tree.args == [] + seq(arity, _ => Null);
      var i := 0;
      while i < arity
        invariant Valid() && depth == old(depth) && next >= old(next) && !failed
        invariant i <= arity && HasArguments(node, fn, pure, i)
        invariant fresh(node.repr - old(node.repr))
        invariant i < arity ==> next < |tokens| && (i == 0 || next > old(next))
        invariant if i < arity then result == ParseArgs(fn, pure, node.tree.args[..i], Left(), depth)
                  else result == Parsed(node.tree, Left().Fail()) && Current().Sep?
      {
        var present := Argument(node, i, fn, pure, result);
        if !present {
          return null;
        }
        if !Current().Sep? {
          break;
        }
        i := i + 1;
      }
      if !Current().Close? || i != arity - 1 {
        failed := true;
      } else {
        NextToken();
      }
      ret := node;
    }

    /** The first `i` parameters of the node are filled in. */
    static ghost predicate HasArguments(node: Node<N>, fn: Fn, pure: bool, i: nat)
      reads node, node.repr
    {
      && node.Valid() && node.head == FunctionHead(fn, pure)
      && |node.params| == fn.Arity() && i <= fn.Arity()
      && (forall j :: i <= j < fn.Arity() ==> node.params[j] == null)
      && node.tree == Expr.Function(fn, pure, node.tree.args[..i] + seq(fn.Arity() - i, _ => Null))
    }

    method Argument(node: Node<N>, i: nat, ghost fn: Fn, ghost pure: bool, ghost result: Parsed<N>)
      returns (present: bool)
      requires Valid() && next < |tokens|
      requires i < fn.Arity() && HasArguments(node, fn, pure, i)
      requires result == ParseArgs(fn, pure, node.tree.args[..i], Left(), depth)
      modifies this, node
      ensures Valid() && depth == old(depth) && next > old(next)
      ensures !present ==> result == Parsed(Null, Left())
      ensures present ==> HasArguments(node, fn, pure, i + 1) && fresh(node.repr - old(node.repr))
      ensures present ==>
        if Current().Sep? && i + 1 < fn.Arity() then result == ParseArgs(fn, pure, node.tree.args[..i + 1], Left(), depth)
        else if Current().Close? && i + 1 == fn.Arity() then result == Parsed(node.tree, Left().Next())
        else result == Parsed(node.tree, Left().Fail())
      decreases |tokens| - next, 29
    {
      ghost var done := node.tree.args[..i];
      ArgumentStep(fn, pure, done, Left(), depth);
      NextToken();
      var p := Level(1);
      present := p != null;
      if present {
        Fill(node, i, p, fn, pure);
      }
    }

    static method Fill(node: Node<N>, i: nat, p: Node<N>, ghost fn: Fn, ghost pure: bool)
      requires i < fn.Arity() && HasArguments(node, fn, pure, i)
      requires p.Valid() && p.repr !! node.repr
      modifies node
      ensures HasArguments(node, fn, pure, i + 1) && node.repr == old(node.repr) + p.repr
      ensures node.tree.args[..i + 1] == old(node.tree.args[..i]) + [p.tree]
    {
      node.SetParam(i, p);
    }

    /** One round of the loop over the parameters. */
    static lemma ArgumentStep(fn: Fn, pure: bool, done: seq<Expr<N>>, input: Input<N>, depth: nat)
      requires |done| < fn.Arity() && input.rest != []
      ensures var arg := ParseLevel(1, input.Next(), depth);
              var node := Expr.Function(fn, pure, done + [arg.tree] + seq(fn.Arity() - |done| - 1, _ => Null));
              var r := ParseArgs(fn, pure, done, input, depth);
              if arg.tree.Null? then r == arg
              else if arg.input.Current().Sep? && |done| + 1 < fn.Arity()
              then r == ParseArgs(fn, pure, done + [arg.tree], arg.input, depth)
              else if arg.input.Current().Close? && |done| + 1 == fn.Arity()
              then r == Parsed(node, arg.input.Next())
              else r == Parsed(node, arg.input.Fail())
    {
    }

    /** The leading signs of `power`: 1 or -1. */
    method ReadSigns() returns (sign: int)
      requires Valid()
      modifies this`next
      ensures Valid() && next >= old(next)
      ensures (sign == 1 || sign == -1) && Signs(false, old(Left())) == (sign == -1, Left())
    {
      ghost var input := Left();
      sign := 1;
      while IsSign(Current())
        invariant Valid() && next >= old(next)
        invariant sign == 1 || sign == -1
        invariant Signs(false, input) == Signs(sign == -1, Left())
        decreases |tokens| - next
      {
        if Current().fn == Sub {
          sign := -sign;
        }
        NextToken();
      }
    }

    /** The rest of the run of `power`: 0 without a "!", else -1 or 1. */
    method ReadNots() returns (logical: int)
      requires Valid()
      modifies this`next
      ensures Valid() && next >= old(next)
      ensures -1 <= logical <= 1 && NotRun(NoNot, old(Left())) == (NotsOf(logical), Left())
    {
      ghost var input := Left();
      logical := 0;
      while IsUnary(Current())
        invariant Valid() && next >= old(next)
        invariant -1 <= logical <= 1
        invariant NotRun(NoNot, input) == NotRun(NotsOf(logical), Left())
        decreases |tokens| - next
      {
        if Current().fn == LogicalNot {
          logical := if logical == 0 then -1 else -logical;
        }
        NextToken();
      }
    }

    /** {("-" | "+" | "!")} base: the run of operators becomes at most one node. */
    method Power() returns (ret: Node?<N>)
      requires Valid()
      modifies this
      ensures Valid() && depth == old(depth) && next >= old(next)
      ensures var p := ParsePower(old(Left()), depth);
              && Built(ret, if p.base.Null? then Null else Apply(p.prefix, p.base)) && Left() == p.input
              && (ret != null ==> appliedUnary == p.prefix.Prefix?)
              && (ret != null && appliedUnary ==> IsUnaryNode(ret, p.prefix.fn, p.base))
      ensures ret != null ==> fresh(ret.repr)
      decreases |tokens| - next, 5
    {
      var sign := ReadSigns();
      var logical := ReadNots();
      ret := Base();
      if ret != null {
        ret := WithPrefix(ret, sign, logical);
        appliedUnary := sign != 1 || logical != 0;
      }
    }

    static method WithPrefix(b: Node<N>, sign: int, logical: int) returns (ret: Node<N>)
      requires b.Valid() && (sign == 1 || sign == -1) && -1 <= logical <= 1
      ensures ret.Valid() && fresh(ret.repr - b.repr)
      ensures var prefix := PrefixOf(sign == -1, NotsOf(logical));
              && ret.tree == Apply(prefix, b.tree)
              && prefix.Prefix? == (sign != 1 || logical != 0)
              && (prefix.Prefix? ==> IsUnaryNode(ret, prefix.fn, b.tree))
    {
      if sign == 1 {
        if logical == 0 {
          ret := b;
        } else {
          ret := new Node<N>.Unary(if logical == -1 then LogicalNot else LogicalNotNot, b);
        }
      } else {
        ret := new Node<N>.Unary(
          if logical == 0 then Negate else if logical == -1 then NegateLogicalNot else NegateLogicalNotNot, b);
      }
    }

    /** The `logical` counter of `power`: 0, then -1 and 1 in turns. */
    static function NotsOf(logical: int): Nots {
      if logical == 0 then NoNot else if logical == -1 then OddNots else EvenNots
    }

    static ghost predicate IsUnaryNode(n: Node<N>, fn: Fn, arg: Expr<N>)
      requires n.Valid()
      reads n, n.repr
    {
      n.head == FunctionHead(fn, true) && |n.params| == 1 && n.params[0] != null && n.params[0].tree == arg
    }

    /** The first power of `factor`, with its unary operators taken off. */
    method FirstPower() returns (root: Node?<N>, left: Prefix)
      requires Valid()
      modifies this
      ensures Valid() && depth == old(depth) && next >= old(next)
      ensures var p := ParsePower(old(Left()), depth);
              Built(root, p.base) && Left() == p.input && (root != null ==> left == p.prefix)
      ensures root != null ==> fresh(root.repr)
      decreases |tokens| - next, 6
    {
      root := Power();
      left := NoPrefix;
      if root != null && appliedUnary && root.head.FunctionHead? && root.head.pure && |root.params| == 1 {
        left := Prefix(root.head.fn);
        root := root.params[0];
      }
    }

    /** "^" power: read one exponent. */
    method Exponent() returns (p: Node?<N>, ghost power: ParsedPower<N>)
      requires Valid() && Continues(FACTOR, Current())
      modifies this
      ensures Valid() && depth == old(depth) && next > old(next)
      ensures power == ParsePower(old(Left()).Next(), depth) && Left() == power.input
      ensures p == null <==> power.base.Null?
      ensures p != null ==>
        && p.Valid() && fresh(p.repr) && p.tree == Apply(power.prefix, power.base)
        && appliedUnary == power.prefix.Prefix? && (appliedUnary ==> p.head == FunctionHead(power.prefix.fn, true))
      decreases |tokens| - next, 6
    {
      power := ParsePower(Left().Next(), depth);
      NextToken();
      p := Power();
    }

    /** "^" power: insert one exponent; false when base gave up. */
    method NextExponent(root: Node<N>, slot: Node?<N>, index: nat, ghost c: Chain<N>, ghost tail: Node<N>,
                        ghost left: Prefix, ghost result: Parsed<N>)
      returns (found: bool, root': Node<N>, slot': Node?<N>, index': nat, ghost c': Chain<N>, ghost tail': Node<N>)
      requires Valid() && Continues(FACTOR, Current())
      requires IsChain(c, tail) && IsSlot(c, tail, root, slot, index)
      requires result == Iterate(left, c.spine, tail.tree, Left(), depth)
      modifies this, if slot == null then {} else {slot}
      ensures Valid() && depth == old(depth) && next > old(next)
      ensures !found ==> result == Parsed(Null, Left())
      ensures found ==>
        && IsChain(c', tail') && IsSlot(c', tail', root', slot', index') && fresh(c'.all - c.all)
        && result == Iterate(left, c'.spine, tail'.tree, Left(), depth)
      decreases |tokens| - next, 7
    {
      IterateStep(left, c.spine, tail.tree, Left(), depth);
      var p;
      ghost var power;
      p, power := Exponent();
      found, root', slot', index', c', tail' := p != null, root, slot, index, c, tail;
      if found {
        root', slot', index', c', tail' :=
          InsertExponent(root, slot, index, p, appliedUnary, power.prefix, power.base, c, tail);
      }
    }

    /** power {"^" power}, right to left: every exponent goes into the slot of the
        chain, and the slot moves inside a unary operator of the exponent.  Unary
        operators left of the first "^" are taken off and put back on the whole chain. */
    method Factor() returns (ret: Node?<N>)
      requires Valid()
      modifies this
      ensures Valid() && depth == old(depth) && next >= old(next)
      ensures var r := ParseFactor(old(Left()), depth); Built(ret, r.tree) && Left() == r.input
      ensures ret != null ==> fresh(ret.repr)
      decreases |tokens| - next, 9
    {
      SlotLoopIsRecursiveRule(Left(), depth);
      var left;
      ret, left := FirstPower();
      if ret != null {
        ret := Powers(ret, left);
      }
    }

    /** {"^" power} behind the first power of `factor`. */
    method Powers(first: Node<N>, left: Prefix) returns (ret: Node?<N>)
      requires Valid() && first.Valid() && !first.tree.Null?
      modifies this, first.repr
      ensures Valid() && depth == old(depth) && next >= old(next)
      ensures var r := Iterate(left, [], old(first.tree), old(Left()), depth); Built(ret, r.tree) && Left() == r.input
      ensures ret != null ==> fresh(ret.repr - old(first.repr))
      decreases |tokens| - next, 8
    {
      var root, slot: Node?<N>, index := first, null, 0;
      ghost var tail: Node<N>, c: Chain<N> := first, Chain(first.repr, [], [], []);
      ghost var result := Iterate(left, [], first.tree, Left(), depth);
      while Continues(FACTOR, Current())
        invariant Valid() && depth == old(depth) && next >= old(next)
        invariant fresh(c.all - old(first.repr)) && IsChain(c, tail) && IsSlot(c, tail, root, slot, index)
        invariant result == Iterate(left, c.spine, tail.tree, Left(), depth)
        decreases |tokens| - next
      {
        var found;
        found, root, slot, index, c, tail := NextExponent(root, slot, index, c, tail, left, result);
        if !found {
          return null;
        }
      }
      IterateStep(left, c.spine, tail.tree, Left(), depth);
      ret := FinishChain(root, slot, index, left, c, tail);
    }

    /** The functions term, sum_expr, rel_expr, eq_expr, and_expr, expr and list:
        a left-associative chain of operators of level `k`. */
    method Level(k: nat) returns (ret: Node?<N>)
      requires Valid() && k <= LEVELS
      modifies this
      ensures Valid() && depth == old(depth) && next >= old(next)
      ensures var r := ParseLevel(k, old(Left()), depth); Built(ret, r.tree) && Left() == r.input
      ensures ret != null ==> fresh(ret.repr)
      decreases |tokens| - next, 20 - k
    {
      if k == LEVELS {
        ret := Factor();
      } else {
        Descend(k, Left(), depth);
        ret := Level(k + 1);
        if ret != null {
          ret := Operands(k, ret);
        }
      }
    }

    /** {operator operand} behind the first operand of a chain. */
    method Operands(k: nat, first: Node<N>) returns (ret: Node?<N>)
      requires Valid() && k < LEVELS && first.Valid() && !first.tree.Null?
      modifies this
      ensures Valid() && depth == old(depth) && next >= old(next)
      ensures var r := ParseChain(k, first.tree, old(Left()), depth); Built(ret, r.tree) && Left() == r.input
      ensures ret != null ==> fresh(ret.repr - first.repr)
      decreases |tokens| - next, 1
    {
      ghost var result := ParseChain(k, first.tree, Left(), depth);
      ret := first;
      while Continues(k, Current())
        invariant Valid() && depth == old(depth) && next >= old(next)
        invariant ret != null && ret.Valid() && fresh(ret.repr - first.repr) && !ret.tree.Null?
        invariant result == ParseChain(k, ret.tree, Left(), depth)
        decreases |tokens| - next
      {
        ret := Operand(k, ret, result);
        if ret == null {
          return;
        }
      }
    }

    /** One operator and its right operand. */
    method Operand(k: nat, left: Node<N>, ghost result: Parsed<N>) returns (ret: Node?<N>)
      requires Valid() && k < LEVELS && left.Valid() && !left.tree.Null? && Continues(k, Current())
      requires result == ParseChain(k, left.tree, Left(), depth)
      modifies this
      ensures Valid() && depth == old(depth) && next > old(next)
      ensures if ret == null then result.tree.Null? && Left() == result.input
              else ret.Valid() && !ret.tree.Null? && result == ParseChain(k, ret.tree, Left(), depth)
      ensures ret != null ==> fresh(ret.repr - left.repr)
      decreases |tokens| - next, 0
    {
      ChainStep(k, left.tree, Left(), depth);
      var fn := OperatorOf(k, Current());
      NextToken();
      ret := Level(k + 1);
      if ret != null {
        ret := new Node<N>.Binary(fn, left, ret);
      }
    }
  }

  /** te_compile: parse, reject what is left over, fold in place.  `ends` are the
      positions at which the lexer has read each token, and the end.  `error` is -1 if the
      expression nests too deeply, at a syntax error the position behind the token at
      which the parser stops, at least 1, and otherwise 0. */
  method TeCompile<N>(ar: Arith<N>, tokens: seq<Token<N>>, ends: seq<nat>) returns (root: Node?<N>, error: int)
    requires |ends| == |tokens| + 1
    ensures match Compile(ar, tokens)
            case OutOfDepth => root == null && error == -1
            case SyntaxError(at) => root == null && error == if ends[at] == 0 then 1 else ends[at]
            case Ok(tree) => root != null && fresh(root.repr) && root.Valid() && root.tree == tree && error == 0
  {
    var s := new Parser<N>(tokens);
    root := s.Level(0);
    if root == null {
      return null, -1;
    }
    if !s.Current().End? {
      root := null;
      error := ends[s.next];
      if error == 0 {
        error := 1;
      }
    } else {
      LevelIsSound(0, Input(tokens, false), 0);
      root.Optimize(ar);
      error := 0;
    }
  }
}
