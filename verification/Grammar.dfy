/** The grammar tinyexpr parses, as functions over a token stream.

    The functions follow the rules of the grammar; the right-associative `^` is
    the plain recursive rule.  The parser of `ParserCode` is proved against them. */
module Grammar {
  import opened TinyExpr

  /** TE_MAX_DEPTH: the deepest nesting of base expressions that is parsed. */
  const MAX_DEPTH: nat := 512

  /** Tokens as the lexer delivers them. */
  datatype Token<N> =
    | Number(value: N)
    | VariableName(slot: nat)
    | FunctionName(name: string, params: nat, pure: bool)
    | Infix(fn: Fn)
    | Sep | Open | Close
    | Error
    | End

  /** What is left to parse: the current token is the first one of `rest`, and
      TOK_END when there is none.  `failed` is TOK_ERROR set by the parser itself. */
  datatype Input<N> = Input(rest: seq<Token<N>>, failed: bool) {
    function Current(): Token<N> {
      if failed then Error else if rest == [] then End else rest[0]
    }

    function Next(): Input<N> {
      if rest == [] then this else this.(rest := rest[1..])
    }

    function Fail(): Input<N> {
      this.(failed := true)
    }
  }

  /** A parsed tree (`Null` for the NULL of the nesting guard) and what follows it. */
  datatype Parsed<N> = Parsed(tree: Expr<N>, input: Input<N>)

  /** The prefix node for a run of unary operators, if one is needed. */
  datatype Prefix = NoPrefix | Prefix(fn: Fn)

  /** A parsed `power`: its prefix and the base the prefix applies to. */
  datatype ParsedPower<N> = ParsedPower(prefix: Prefix, base: Expr<N>, input: Input<N>)

  // ----- Operators -----

  /** The binary levels, loosest first: list, expr, and, eq, rel, sum, term. */
  const LEVELS: nat := 7
  const FACTOR: nat := 7
  const POWER: nat := 8
  const BASE: nat := 9

  /** The level a binary operator belongs to; LEVELS + 3 for everything else. */
  function LevelOf(fn: Fn): nat {
    match fn
    case Comma => 0
    case LogicalOr => 1
    case LogicalAnd => 2
    case Equal | NotEqual => 3
    case Greater | GreaterEq | Lower | LowerEq => 4
    case Add | Sub => 5
    case Mul | Divide | Fmod => 6
    case Pow => FACTOR
    case _ => BASE + 1
  }

  /** Whether the token continues a chain of level `k`. */
  predicate Continues<N>(k: nat, t: Token<N>) {
    if k == 0 then t.Sep? else t.Infix? && LevelOf(t.fn) == k
  }

  /** The function of the node a continuing token builds. */
  function OperatorOf<N>(k: nat, t: Token<N>): Fn
    requires Continues(k, t)
  {
    if k == 0 then Comma else t.fn
  }

  function Apply<N>(prefix: Prefix, e: Expr<N>): Expr<N> {
    match prefix
    case NoPrefix => e
    case Prefix(fn) => Expr.Function(fn, true, [e])
  }

  function Binary<N>(fn: Fn, l: Expr<N>, r: Expr<N>): Expr<N> {
    Expr.Function(fn, true, [l, r])
  }

  // ----- Unary runs -----

  predicate IsSign<N>(t: Token<N>) {
    t.Infix? && (t.fn == Add || t.fn == Sub)
  }

  predicate IsUnary<N>(t: Token<N>) {
    IsSign(t) || (t.Infix? && t.fn == LogicalNot)
  }

  /** The leading signs: true for an odd number of `-`. */
  function Signs<N>(negative: bool, input: Input<N>): (r: (bool, Input<N>))
    ensures |r.1.rest| <= |input.rest| && r.1.failed == input.failed
    decreases |input.rest|
  {
    if IsSign(input.Current())
    then Signs(negative != (input.Current().fn == Sub), input.Next())
    else (negative, input)
  }

  /** The parity of the `!` seen: none, odd or even. */
  datatype Nots = NoNot | OddNots | EvenNots {
    function Toggle(): Nots {
      if this == OddNots then EvenNots else OddNots
    }
  }

  /** Signs and `!` from the first `!` on; signs no longer matter there. */
  function NotRun<N>(nots: Nots, input: Input<N>): (r: (Nots, Input<N>))
    ensures |r.1.rest| <= |input.rest| && r.1.failed == input.failed
    decreases |input.rest|
  {
    if IsUnary(input.Current())
    then NotRun(if input.Current().fn == LogicalNot then nots.Toggle() else nots, input.Next())
    else (nots, input)
  }

  function PrefixOf(negative: bool, nots: Nots): Prefix {
    match (negative, nots)
    case (false, NoNot) => NoPrefix
    case (false, OddNots) => Prefix(LogicalNot)
    case (false, EvenNots) => Prefix(LogicalNotNot)
    case (true, NoNot) => Prefix(Negate)
    case (true, OddNots) => Prefix(NegateLogicalNot)
    case (true, EvenNots) => Prefix(NegateLogicalNotNot)
  }

  // ----- The rules -----

  function ParseBase<N>(input: Input<N>, depth: nat): (r: Parsed<N>)
    ensures |r.input.rest| <= |input.rest|
    ensures input.failed ==> r.input.failed
    ensures r.tree.Null? ==> r.input.failed
    decreases |input.rest|, 0
  {
    if depth >= MAX_DEPTH then Parsed(Null, input.Fail())
    else
      match input.Current()
      case Number(v) => Parsed(Constant(v), input.Next())
      case VariableName(s) => Parsed(Variable(s), input.Next())
      case FunctionName(name, params, pure) =>
        var after := input.Next();
        if params == 0 then
          var node := Expr.Function(Named(name, 0), pure, []);
          if !after.Current().Open? then Parsed(node, after)
          else if !after.Next().Current().Close? then Parsed(node, after.Next().Fail())
          else Parsed(node, after.Next().Next())
        else if params == 1 then
          var arg := ParsePower(after, depth + 1);
          if arg.base.Null? then Parsed(Null, arg.input)
          else Parsed(Expr.Function(Named(name, 1), pure, [Apply(arg.prefix, arg.base)]), arg.input)
        else if !after.Current().Open? then
          Parsed(Expr.Function(Named(name, params), pure, seq(params, _ => Null)), after.Fail())
        else
          ParseArgs(Named(name, params), pure, [], after, depth + 1)
      case Open =>
        var inner := ParseLevel(0, input.Next(), depth + 1);
        if inner.tree.Null? then inner
        else if !inner.input.Current().Close? then Parsed(inner.tree, inner.input.Fail())
        else Parsed(inner.tree, inner.input.Next())
      case _ => Parsed(Placeholder, input.Fail())
  }

  /** The parameters of a function after those in `args`; the current token is
      the `(` or `,` in front of the next one. */
  function ParseArgs<N>(fn: Fn, pure: bool, args: seq<Expr<N>>, input: Input<N>, depth: nat): (r: Parsed<N>)
    requires |args| < fn.Arity()
    requires input.rest != []
    ensures |r.input.rest| < |input.rest|
    ensures input.failed ==> r.input.failed
    ensures r.tree.Null? ==> r.input.failed
    decreases |input.rest|, 10
  {
    var arg := ParseLevel(1, input.Next(), depth);
    if arg.tree.Null? then arg
    else
      var args' := args + [arg.tree];
      if arg.input.Current().Sep? && |args'| < fn.Arity() then ParseArgs(fn, pure, args', arg.input, depth)
      else
        var node := Expr.Function(fn, pure, args' + seq(fn.Arity() - |args'|, _ => Null));
        if arg.input.Current().Close? && |args'| == fn.Arity() then Parsed(node, arg.input.Next())
        else Parsed(node, arg.input.Fail())
  }

  /** {("-" | "+" | "!")} base, with the run collapsed to one prefix. */
  function ParsePower<N>(input: Input<N>, depth: nat): (r: ParsedPower<N>)
    ensures |r.input.rest| <= |input.rest|
    ensures input.failed ==> r.input.failed
    ensures r.base.Null? ==> r.input.failed
    decreases |input.rest|, 1
  {
    var (negative, afterSigns) := Signs(false, input);
    var (nots, afterNots) := NotRun(NoNot, afterSigns);
    var base := ParseBase(afterNots, depth);
    ParsedPower(PrefixOf(negative, nots), base.tree, base.input)
  }

  /** factor = prefix base | prefix (base "^" factor): a unary operator applies
      to the whole power to its right. */
  function ParseFactor<N>(input: Input<N>, depth: nat): (r: Parsed<N>)
    ensures |r.input.rest| <= |input.rest|
    ensures input.failed ==> r.input.failed
    ensures r.tree.Null? ==> r.input.failed
    decreases |input.rest|, 2
  {
    var p := ParsePower(input, depth);
    if p.base.Null? then Parsed(Null, p.input)
    else if !Continues(FACTOR, p.input.Current()) then Parsed(Apply(p.prefix, p.base), p.input)
    else
      var exponent := ParseFactor(p.input.Next(), depth);
      if exponent.tree.Null? then exponent
      else Parsed(Apply(p.prefix, Binary(Pow, p.base, exponent.tree)), exponent.input)
  }

  /** The rules term, sum_expr, rel_expr, eq_expr, and_expr, expr and list. */
  function ParseLevel<N>(k: nat, input: Input<N>, depth: nat): (r: Parsed<N>)
    requires k <= LEVELS
    ensures |r.input.rest| <= |input.rest|
    ensures input.failed ==> r.input.failed
    ensures r.tree.Null? ==> r.input.failed
    decreases |input.rest|, 10 - k
  {
    if k == LEVELS then ParseFactor(input, depth)
    else
      var first := ParseLevel(k + 1, input, depth);
      if first.tree.Null? then first else ParseChain(k, first.tree, first.input, depth)
  }

  /** The rest of a left-associative chain whose operands so far are in `left`. */
  function ParseChain<N>(k: nat, left: Expr<N>, input: Input<N>, depth: nat): (r: Parsed<N>)
    requires k < LEVELS
    requires !left.Null?
    ensures |r.input.rest| <= |input.rest|
    ensures input.failed ==> r.input.failed
    ensures r.tree.Null? ==> r.input.failed
    decreases |input.rest|, 0
  {
    var t := input.Current();
    if !Continues(k, t) then Parsed(left, input)
    else
      var right := ParseLevel(k + 1, input.Next(), depth);
      if right.tree.Null? then right
      else ParseChain(k, Binary(OperatorOf(k, t), left, right.tree), right.input, depth)
  }

  // ----- One step of a chain -----

  lemma Descend<N>(k: nat, input: Input<N>, depth: nat)
    requires k < LEVELS
    ensures var first := ParseLevel(k + 1, input, depth);
            ParseLevel(k, input, depth) == if first.tree.Null? then first else ParseChain(k, first.tree, first.input, depth)
  {
  }

  lemma ChainStep<N>(k: nat, left: Expr<N>, input: Input<N>, depth: nat)
    requires k < LEVELS && !left.Null? && Continues(k, input.Current())
    ensures var right := ParseLevel(k + 1, input.Next(), depth);
            var r := ParseChain(k, left, input, depth);
            if right.tree.Null? then r == right
            else r == ParseChain(k, Binary(OperatorOf(k, input.Current()), left, right.tree), right.input, depth)
  {
  }

  // ----- te_compile -----

  /** NULL with the error value -1, NULL with an error position, or the folded tree.
      `at` is the token at which the parser stops, the number of tokens for the end. */
  datatype Compiled<N> = OutOfDepth | SyntaxError(at: nat) | Ok(tree: Expr<N>)

  function Compile<N>(ar: Arith<N>, tokens: seq<Token<N>>): (c: Compiled<N>)
    ensures c.SyntaxError? ==> c.at <= |tokens|
  {
    var r := ParseLevel(0, Input(tokens, false), 0);
    if r.tree.Null? then OutOfDepth
    else if !r.input.Current().End? then SyntaxError(|tokens| - |r.input.rest|)
    else Ok(Fold(ar, r.tree))
  }

  // ----- Accepted trees are well formed -----

  ghost predicate Sound<N>(tree: Expr<N>, input: Input<N>) {
    !input.failed ==> tree.WellFormed()
  }

  lemma {:induction false} BaseIsSound<N>(input: Input<N>, depth: nat)
    ensures var r := ParseBase(input, depth); Sound(r.tree, r.input)
    decreases |input.rest|, 0
  {
    if depth < MAX_DEPTH {
      match input.Current()
      case FunctionName(name, params, pure) =>
        if params == 1 {
          PowerIsSound(input.Next(), depth + 1);
          var arg := ParsePower(input.Next(), depth + 1);
          if !arg.input.failed {
            assert Apply(arg.prefix, arg.base).WellFormed();
          }
        } else if params > 1 && input.Next().Current().Open? {
          ArgsAreSound(Named(name, params), pure, [], input.Next(), depth + 1);
        }
      case Open => LevelIsSound(0, input.Next(), depth + 1);
      case _ =>
    }
  }

  lemma {:induction false} ArgsAreSound<N>(fn: Fn, pure: bool, args: seq<Expr<N>>, input: Input<N>, depth: nat)
    requires |args| < fn.Arity()
    requires input.rest != []
    requires forall i :: 0 <= i < |args| ==> args[i].WellFormed()
    ensures var r := ParseArgs(fn, pure, args, input, depth); Sound(r.tree, r.input)
    decreases |input.rest|, 10
  {
    LevelIsSound(1, input.Next(), depth);
    var arg := ParseLevel(1, input.Next(), depth);
    if !arg.input.failed && arg.input.Current().Sep? && |args| + 1 < fn.Arity() {
      ArgsAreSound(fn, pure, args + [arg.tree], arg.input, depth);
    }
  }

  lemma {:induction false} PowerIsSound<N>(input: Input<N>, depth: nat)
    ensures var r := ParsePower(input, depth); Sound(r.base, r.input) && Sound(Apply(r.prefix, r.base), r.input)
    decreases |input.rest|, 1
  {
    var (negative, afterSigns) := Signs(false, input);
    var (nots, afterNots) := NotRun(NoNot, afterSigns);
    BaseIsSound(afterNots, depth);
  }

  lemma {:induction false} FactorIsSound<N>(input: Input<N>, depth: nat)
    ensures Sound(ParseFactor(input, depth).tree, ParseFactor(input, depth).input)
    decreases |input.rest|, 2
  {
    PowerIsSound(input, depth);
    var p := ParsePower(input, depth);
    if !p.base.Null? && Continues(FACTOR, p.input.Current()) {
      FactorIsSound(p.input.Next(), depth);
      var exponent := ParseFactor(p.input.Next(), depth);
      if !exponent.input.failed {
        assert Binary(Pow, p.base, exponent.tree).WellFormed();
      }
    }
  }

  lemma {:induction false} LevelIsSound<N>(k: nat, input: Input<N>, depth: nat)
    requires k <= LEVELS
    ensures var r := ParseLevel(k, input, depth); Sound(r.tree, r.input)
    decreases |input.rest|, 10 - k
  {
    if k == LEVELS {
      FactorIsSound(input, depth);
    } else {
      LevelIsSound(k + 1, input, depth);
      var first := ParseLevel(k + 1, input, depth);
      if !first.tree.Null? {
        ChainIsSound(k, first.tree, first.input, depth);
      }
    }
  }

  lemma {:induction false} ChainIsSound<N>(k: nat, left: Expr<N>, input: Input<N>, depth: nat)
    requires k < LEVELS
    requires !left.Null?
    requires Sound(left, input)
    ensures var r := ParseChain(k, left, input, depth); Sound(r.tree, r.input)
    decreases |input.rest|, 0
  {
    var t := input.Current();
    if Continues(k, t) {
      LevelIsSound(k + 1, input.Next(), depth);
      var right := ParseLevel(k + 1, input.Next(), depth);
      if !right.tree.Null? {
        ChainIsSound(k, Binary(OperatorOf(k, t), left, right.tree), right.input, depth);
      }
    }
  }

  /** Every tree te_compile returns has exactly `arity` parameters, none of them
      NULL, at every function node, and its pure parts are folded as far as possible. */
  lemma AcceptedTreeIsWellFormed<N(!new)>(ar: Arith<N>, tokens: seq<Token<N>>)
    requires Compile(ar, tokens).Ok?
    ensures Compile(ar, tokens).tree.WellFormed()
    ensures FullyFolded(Compile(ar, tokens).tree)
  {
    LevelIsSound(0, Input(tokens, false), 0);
    var r := ParseLevel(0, Input(tokens, false), 0);
    FoldPreservesMeaning(ar, ar, [], r.tree) by {
      AgreesWithItself(ar, r.tree);
    }
    FoldIsComplete(ar, r.tree);
  }

  lemma {:induction false} AgreesWithItself<N(!new)>(ar: Arith<N>, e: Expr<N>)
    ensures AgreeOnPure(ar, ar, e)
  {
    match e
    case Function(_, _, args) =>
      forall i | 0 <= i < |args| ensures AgreeOnPure(ar, ar, args[i]) {
        AgreesWithItself(ar, args[i]);
      }
    case _ =>
  }
}
