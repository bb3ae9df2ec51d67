/** Printing expressions with the parentheses that precedence requires and those the
    author wants, and the proof that the parser reads every printed expression back. */
module Printing {
  import opened TinyExpr
  import opened Grammar

  datatype UnaryOp = Minus | Plus | Not

  /** An expression as its author means it, every operator applied one by one.  `Paren`
      stands for parentheses the author writes whether or not they are required, and
      `EmptyCall` for a function without parameters that is written with parentheses. */
  datatype Ast<N> =
    | Num(value: N)
    | Name(slot: nat)
    | Call(name: string, pure: bool, args: seq<Ast<N>>)
    | Unary(op: UnaryOp, arg: Ast<N>)
    | Operation(fn: Fn, left: Ast<N>, right: Ast<N>)
    | Paren(inner: Ast<N>)
    | EmptyCall(name: string, pure: bool)
  {
    /** All operators are binary operators of the grammar. */
    ghost predicate WellFormed() {
      match this
      case Call(_, _, args) => forall i :: 0 <= i < |args| ==> args[i].WellFormed()
      case Unary(_, a) => a.WellFormed()
      case Operation(fn, l, r) => LevelOf(fn) <= FACTOR && l.WellFormed() && r.WellFormed()
      case Paren(a) => a.WellFormed()
      case _ => true
    }
  }

  function UnaryValue<N>(ar: Arith<N>, op: UnaryOp, x: N): N {
    match op
    case Minus => ar.apply(Negate, [x])
    case Plus => x
    case Not => ar.apply(LogicalNot, [x])
  }

  function Meaning<N>(ar: Arith<N>, slots: seq<N>, e: Ast<N>): N {
    match e
    case Num(v) => v
    case Name(s) => if s < |slots| then slots[s] else ar.nan
    case Call(name, _, args) =>
      ar.apply(Named(name, |args|), seq(|args|, i requires 0 <= i < |args| => Meaning(ar, slots, args[i])))
    case Unary(op, a) => UnaryValue(ar, op, Meaning(ar, slots, a))
    case Operation(fn, l, r) => ar.apply(fn, [Meaning(ar, slots, l), Meaning(ar, slots, r)])
    case Paren(a) => Meaning(ar, slots, a)
    case EmptyCall(name, _) => ar.apply(Named(name, 0), [])
  }

  // ----- The printer -----

  /** The tightest rule that derives the expression without parentheses. */
  function Level<N>(e: Ast<N>): nat {
    match e
    case Unary(_, a) => if Level(a) == FACTOR then FACTOR else POWER
    case Operation(fn, _, _) => LevelOf(fn)
    case _ => BASE
  }

  function UnaryToken<N>(op: UnaryOp): Token<N> {
    match op
    case Minus => Infix(Sub)
    case Plus => Infix(Add)
    case Not => Infix(LogicalNot)
  }

  function OperatorToken<N>(fn: Fn): Token<N> {
    if fn == Comma then Sep else Infix(fn)
  }

  function LeftLevel(fn: Fn): nat {
    if fn == Pow then BASE else LevelOf(fn)
  }

  function RightLevel(fn: Fn): nat {
    if fn == Pow then FACTOR else LevelOf(fn) + 1
  }

  function Enclose<N>(parentheses: bool, tokens: seq<Token<N>>): seq<Token<N>> {
    if parentheses then [Open] + tokens + [Close] else tokens
  }

  function Body<N>(e: Ast<N>): seq<Token<N>> {
    match e
    case Num(v) => [Number(v)]
    case Name(s) => [VariableName(s)]
    case Call(name, pure, args) =>
      [FunctionName(name, |args|, pure)] +
      if |args| == 0 then []
      else if |args| == 1 then Enclose(Level(args[0]) < POWER, Body(args[0]))
      else [Open] + PrintArgs(args) + [Close]
    case Unary(op, a) => [UnaryToken(op)] + Enclose(Level(a) < FACTOR, Body(a))
    case Operation(fn, l, r) =>
      Enclose(Level(l) < LeftLevel(fn), Body(l)) + [OperatorToken(fn)] + Enclose(Level(r) < RightLevel(fn), Body(r))
    case Paren(a) => Enclose(true, Body(a))
    case EmptyCall(name, pure) => [FunctionName(name, 0, pure), Open, Close]
  }

  function PrintArgs<N>(args: seq<Ast<N>>): seq<Token<N>>
    requires args != []
  {
    var first := Enclose(Level(args[0]) < 1, Body(args[0]));
    if |args| == 1 then first else first + [Sep] + PrintArgs(args[1..])
  }

  /** The expression where rule `k` is expected. */
  function Print<N>(e: Ast<N>, k: nat): seq<Token<N>> {
    Enclose(Level(e) < k, Body(e))
  }

  // ----- How deep the parser has to nest -----

  function Max(a: nat, b: nat): nat {
    if a < b then b else a
  }

  function Extra(parentheses: bool): nat {
    if parentheses then 1 else 0
  }

  function BodyNesting<N>(e: Ast<N>): (n: nat)
    ensures n >= 1
  {
    match e
    case Call(_, _, args) =>
      1 + if |args| == 0 then 0
          else if |args| == 1 then BodyNesting(args[0]) + Extra(Level(args[0]) < POWER)
          else ArgsNesting(args)
    case Unary(_, a) => BodyNesting(a) + Extra(Level(a) < FACTOR)
    case Operation(fn, l, r) =>
      Max(BodyNesting(l) + Extra(Level(l) < LeftLevel(fn)), BodyNesting(r) + Extra(Level(r) < RightLevel(fn)))
    case Paren(a) => BodyNesting(a) + 1
    case _ => 1
  }

  function ArgsNesting<N>(args: seq<Ast<N>>): nat
    requires args != []
  {
    var first := BodyNesting(args[0]) + Extra(Level(args[0]) < 1);
    if |args| == 1 then first else Max(first, ArgsNesting(args[1..]))
  }

  function Nesting<N>(e: Ast<N>, k: nat): nat {
    BodyNesting(e) + Extra(Level(e) < k)
  }

  // ----- The tree the parser builds -----

  /** What `power` remembers of the unary operators it has read. */
  datatype Run = Run(negative: bool, nots: Nots) {
    function Then(op: UnaryOp): Run {
      match op
      case Minus => if nots == NoNot then this.(negative := !negative) else this
      case Plus => this
      case Not => this.(nots := nots.Toggle())
    }

    function Prefix(): Grammar.Prefix {
      PrefixOf(negative, nots)
    }
  }

  const START: Run := Run(false, NoNot)

  /** The tree of `e` when the operators of `run` are already read. */
  function TreeAfter<N>(run: Run, e: Ast<N>): (t: Expr<N>)
    ensures !t.Null?
    decreases e
  {
    match e
    case Num(v) => Apply(run.Prefix(), Constant(v))
    case Name(s) => Apply(run.Prefix(), Variable(s))
    case Call(name, pure, args) =>
      var trees := seq(|args|, i requires 0 <= i < |args| => TreeAfter(START, args[i]));
      Apply(run.Prefix(), Expr.Function(Named(name, |args|), pure, trees))
    case Unary(op, a) => TreeAfter(run.Then(op), a)
    case Operation(fn, l, r) => Apply(run.Prefix(), Binary(fn, TreeAfter(START, l), TreeAfter(START, r)))
    case Paren(a) => Apply(run.Prefix(), TreeAfter(START, a))
    case EmptyCall(name, pure) => Apply(run.Prefix(), Expr.Function(Named(name, 0), pure, []))
  }

  function Tree<N>(e: Ast<N>): (t: Expr<N>)
    ensures !t.Null?
  {
    TreeAfter(START, e)
  }

  // ----- Unary runs: reading operator by operator -----

  /** `power` from the state `run` on. */
  function PowerFrom<N>(run: Run, input: Input<N>, depth: nat): ParsedPower<N> {
    if run.nots == NoNot then
      var (negative, afterSigns) := Signs(run.negative, input);
      var (nots, afterNots) := NotRun(NoNot, afterSigns);
      var base := ParseBase(afterNots, depth);
      ParsedPower(PrefixOf(negative, nots), base.tree, base.input)
    else
      var (nots, afterNots) := NotRun(run.nots, input);
      var base := ParseBase(afterNots, depth);
      ParsedPower(PrefixOf(run.negative, nots), base.tree, base.input)
  }

  lemma ReadUnary<N>(run: Run, op: UnaryOp, rest: seq<Token<N>>, depth: nat)
    ensures PowerFrom(run, Input([UnaryToken(op)] + rest, false), depth)
         == PowerFrom(run.Then(op), Input(rest, false), depth)
  {
    var input := Input([UnaryToken<N>(op)] + rest, false);
    assert input.Next() == Input(rest, false);
    if run.nots == NoNot && op == Not {
      assert Signs(run.negative, input) == (run.negative, input);
    }
  }

  /** Whether a token can start a base expression. */
  predicate StartsBase<N>(t: Token<N>) {
    t.Number? || t.VariableName? || t.FunctionName? || t.Open?
  }

  lemma ReadBase<N>(run: Run, input: Input<N>, depth: nat)
    requires StartsBase(input.Current())
    ensures PowerFrom(run, input, depth)
         == ParsedPower(run.Prefix(), ParseBase(input, depth).tree, ParseBase(input, depth).input)
  {
  }

  /** `factor` from the state `run` on. */
  function FactorFrom<N>(run: Run, input: Input<N>, depth: nat): Parsed<N> {
    var p := PowerFrom(run, input, depth);
    if p.base.Null? then Parsed(Null, p.input)
    else if !Continues(FACTOR, p.input.Current()) then Parsed(Apply(p.prefix, p.base), p.input)
    else
      var exponent := ParseFactor(p.input.Next(), depth);
      if exponent.tree.Null? then exponent
      else Parsed(Apply(p.prefix, Binary(Pow, p.base, exponent.tree)), exponent.input)
  }

  lemma FromStart<N>(input: Input<N>, depth: nat)
    ensures PowerFrom(START, input, depth) == ParsePower(input, depth)
    ensures FactorFrom(START, input, depth) == ParseFactor(input, depth)
  {
  }

  // ----- The parser inverts the printer -----

  /** What may follow an expression of level `k`: the end, a closing token, or an
      operator that binds no tighter than the level. */
  predicate Follows<N>(k: nat, rest: seq<Token<N>>) {
    rest == [] || rest[0].Close? || rest[0].Sep? || (rest[0].Infix? && LevelOf(rest[0].fn) <= k)
  }

  predicate Fits<N>(e: Ast<N>, k: nat, depth: nat) {
    depth + Nesting(e, k) <= MAX_DEPTH
  }

  lemma Associative<T>(a: seq<T>, b: seq<T>, c: seq<T>, d: seq<T>)
    ensures (a + b + c) + d == a + (b + (c + d))
  {
  }

  lemma BodyStartsBase<N>(e: Ast<N>)
    requires e.WellFormed()
    ensures Print(e, BASE) != [] && StartsBase(Print(e, BASE)[0])
  {
  }

  lemma {:induction false} ReadsBase<N>(e: Ast<N>, rest: seq<Token<N>>, depth: nat)
    requires e.WellFormed() && Follows(FACTOR, rest)
    ensures var r := ParseBase(Input(Print(e, BASE) + rest, false), depth);
            if Fits(e, BASE, depth) then r == Parsed(Tree(e), Input(rest, false)) else r.tree.Null?
    decreases |Print(e, BASE)|, 2
  {
    if depth < MAX_DEPTH {
      if e.Call? {
        ReadsCall(e, rest, depth);
      } else if Level(e) < BASE {
        ReadsParentheses(e, rest, depth);
      } else if e.Paren? {
        ReadsParentheses(e.inner, rest, depth);
      } else if e.EmptyCall? {
        ReadsEmptyCall(e, rest, depth);
      } else {
        assert Input(Print(e, BASE) + rest, false).Next() == Input(rest, false);
      }
    }
  }

  lemma ReadsEmptyCall<N>(e: Ast<N>, rest: seq<Token<N>>, depth: nat)
    requires e.EmptyCall? && depth < MAX_DEPTH
    ensures ParseBase(Input(Body(e) + rest, false), depth) == Parsed(Tree(e), Input(rest, false))
  {
    var input := Input(Body(e) + rest, false);
    assert input.Next() == Input([Open, Close] + rest, false);
    assert input.Next().Next() == Input([Close] + rest, false);
    assert input.Next().Next().Next() == Input(rest, false);
  }

  lemma OpenIsRead<N>(body: seq<Token<N>>, rest: seq<Token<N>>)
    ensures
      var input := Input(Enclose(true, body) + rest, false);
      input.Current() == Open && input.Next() == Input(body + ([Close] + rest), false)
  {
    assert Enclose(true, body) + rest == [Open] + (body + ([Close] + rest));
  }

  lemma {:induction false} ReadsParentheses<N>(e: Ast<N>, rest: seq<Token<N>>, depth: nat)
    requires e.WellFormed() && depth < MAX_DEPTH
    ensures var r := ParseBase(Input(Enclose(true, Body(e)) + rest, false), depth);
            if depth + BodyNesting(e) + 1 <= MAX_DEPTH then r == Parsed(Tree(e), Input(rest, false)) else r.tree.Null?
    decreases |Body(e)| + 2, 0
  {
    var close := [Close] + rest;
    OpenIsRead(Body(e), rest);
    ReadsLevel(0, e, close, depth + 1);
    assert Fits(e, 0, depth + 1) ==>
        ParseChain(0, Tree(e), Input(close, false), depth + 1) == Parsed(Tree(e), Input(close, false));
    assert Input(close, false).Next() == Input(rest, false);
  }

  lemma {:induction false} ReadsCall<N>(e: Ast<N>, rest: seq<Token<N>>, depth: nat)
    requires e.WellFormed() && e.Call? && Follows(FACTOR, rest)
    requires depth < MAX_DEPTH
    ensures var r := ParseBase(Input(Print(e, BASE) + rest, false), depth);
            if Fits(e, BASE, depth) then r == Parsed(Tree(e), Input(rest, false)) else r.tree.Null?
    decreases |Print(e, BASE)|, 1
  {
    var args := e.args;
    var trees := seq(|args|, i requires 0 <= i < |args| => TreeAfter(START, args[i]));
    var after := Input(Body(e)[1..] + rest, false);
    assert Input(Body(e) + rest, false).Next() == after;
    if |args| == 0 {
      assert trees == [];
    } else if |args| == 1 {
      ReadsParameter(e, after, rest, depth + 1);
      assert trees == [Tree(args[0])];
    } else {
      ReadsArgumentList(e, after, rest, depth + 1);
    }
  }

  lemma {:induction false} ReadsParameter<N>(e: Ast<N>, after: Input<N>, rest: seq<Token<N>>, depth: nat)
    requires e.WellFormed() && e.Call? && |e.args| == 1 && Follows(FACTOR, rest)
    requires after == Input(Body(e)[1..] + rest, false)
    ensures var r := ParsePower(after, depth);
            if Fits(e.args[0], POWER, depth)
            then Apply(r.prefix, r.base) == Tree(e.args[0]) && r.input == Input(rest, false) && !r.base.Null?
            else r.base.Null?
    decreases |Body(e)|, 0
  {
    assert after.rest == Print(e.args[0], POWER) + rest;
    ReadsPower(START, e.args[0], rest, depth);
    FromStart(after, depth);
  }

  lemma {:induction false} ReadsArgumentList<N>(e: Ast<N>, after: Input<N>, rest: seq<Token<N>>, depth: nat)
    requires e.WellFormed() && e.Call? && |e.args| > 1
    requires after == Input(Body(e)[1..] + rest, false)
    ensures after.rest != [] && after.rest[0] == Open
    ensures var r := ParseArgs(Named(e.name, |e.args|), e.pure, [], after, depth);
            if depth + ArgsNesting(e.args) <= MAX_DEPTH then r == Parsed(Tree(e), Input(rest, false)) else r.tree.Null?
    decreases |Body(e)|, 0
  {
    var args := e.args;
    var trees := seq(|args|, i requires 0 <= i < |args| => TreeAfter(START, args[i]));
    assert after.rest == [Open] + (PrintArgs(args) + ([Close] + rest));
    ReadsArgs(Named(e.name, |args|), e.pure, [], args, after, rest, depth);
    assert [] + trees == trees;
  }

  lemma {:induction false} ReadsArgs<N>(fn: Fn, pure: bool, done: seq<Expr<N>>, args: seq<Ast<N>>,
                                        input: Input<N>, rest: seq<Token<N>>, depth: nat)
    requires args != [] && |done| + |args| == fn.Arity()
    requires forall i :: 0 <= i < |args| ==> args[i].WellFormed()
    requires !input.failed && input.rest != [] && input.rest[1..] == PrintArgs(args) + ([Close] + rest)
    ensures var r := ParseArgs(fn, pure, done, input, depth);
            var trees := seq(|args|, i requires 0 <= i < |args| => TreeAfter(START, args[i]));
            if depth + ArgsNesting(args) <= MAX_DEPTH
            then r == Parsed(Expr.Function(fn, pure, done + trees), Input(rest, false))
            else r.tree.Null?
    decreases |PrintArgs(args)|, 41
  {
    var trees := seq(|args|, i requires 0 <= i < |args| => TreeAfter(START, args[i]));
    if |args| == 1 {
      var close := [Close] + rest;
      ReadsArg(args[0], close, depth);
      LastArg(fn, pure, done, input, Tree(args[0]), rest, depth);
      assert done + trees == done + [Tree(args[0])];
    } else {
      var more := Input([Sep] + (PrintArgs(args[1..]) + ([Close] + rest)), false);
      assert input.rest[1..] == Print(args[0], 1) + more.rest;
      ReadsArg(args[0], more.rest, depth);
      if Fits(args[0], 1, depth) {
        NextArg(fn, pure, done, input, Tree(args[0]), more, depth);
        ReadsArgs(fn, pure, done + [Tree(args[0])], args[1..], more, rest, depth);
        TreesOfArgs(done, args);
      }
    }
  }

  lemma {:induction false} TreesOfArgs<N>(done: seq<Expr<N>>, args: seq<Ast<N>>)
    requires args != []
    ensures
      var trees := seq(|args|, i requires 0 <= i < |args| => TreeAfter(START, args[i]));
      var tail := seq(|args[1..]|, i requires 0 <= i < |args[1..]| => TreeAfter(START, args[1..][i]));
      done + trees == done + [Tree(args[0])] + tail
  {
  }

  lemma LastArg<N>(fn: Fn, pure: bool, done: seq<Expr<N>>, input: Input<N>, arg: Expr<N>, rest: seq<Token<N>>, depth: nat)
    requires |done| + 1 == fn.Arity() && input.rest != [] && !arg.Null?
    ensures var first := ParseLevel(1, input.Next(), depth);
            var r := ParseArgs(fn, pure, done, input, depth);
            && (first.tree.Null? ==> r.tree.Null?)
            && (first == Parsed(arg, Input([Close] + rest, false)) ==>
                r == Parsed(Expr.Function(fn, pure, done + [arg]), Input(rest, false)))
  {
    assert Input([Token<N>.Close] + rest, false).Next() == Input(rest, false);
    assert done + [arg] + [] == done + [arg];
  }

  lemma NextArg<N>(fn: Fn, pure: bool, done: seq<Expr<N>>, input: Input<N>, arg: Expr<N>, more: Input<N>, depth: nat)
    requires |done| + 1 < fn.Arity() && input.rest != [] && !arg.Null?
    requires more.rest != [] && more.Current().Sep?
    requires ParseLevel(1, input.Next(), depth) == Parsed(arg, more)
    ensures ParseArgs(fn, pure, done, input, depth) == ParseArgs(fn, pure, done + [arg], more, depth)
  {
  }

  lemma {:induction false} ReadsArg<N>(e: Ast<N>, rest: seq<Token<N>>, depth: nat)
    requires e.WellFormed() && rest != [] && (rest[0].Close? || rest[0].Sep?)
    ensures var r := ParseLevel(1, Input(Print(e, 1) + rest, false), depth);
            if Fits(e, 1, depth) then r == Parsed(Tree(e), Input(rest, false)) else r.tree.Null?
    decreases |Print(e, 1)|, 40
  {
    ReadsLevel(1, e, rest, depth);
  }

  lemma {:induction false} ReadsPower<N>(run: Run, e: Ast<N>, rest: seq<Token<N>>, depth: nat)
    requires e.WellFormed() && Follows(FACTOR, rest)
    ensures var r := PowerFrom(run, Input(Print(e, POWER) + rest, false), depth);
            if Fits(e, POWER, depth)
            then Apply(r.prefix, r.base) == (if Level(e) >= POWER then TreeAfter(run, e) else Apply(run.Prefix(), Tree(e)))
              && r.input == Input(rest, false) && !r.base.Null?
            else r.base.Null?
    decreases |Print(e, POWER)|, 4
  {
    if e.Unary? && Level(e) == POWER {
      assert Print(e.arg, POWER) == Print(e.arg, FACTOR);
      assert Print(e, POWER) + rest == [UnaryToken(e.op)] + (Print(e.arg, POWER) + rest);
      ReadUnary(run, e.op, Print(e.arg, POWER) + rest, depth);
      ReadsPower(run.Then(e.op), e.arg, rest, depth);
    } else {
      assert Print(e, POWER) == Print(e, BASE);
      ReadsPlainPower(run, e, rest, depth);
    }
  }

  /** A base expression behind the operators already read. */
  lemma {:induction false} ReadsPlainPower<N>(run: Run, e: Ast<N>, rest: seq<Token<N>>, depth: nat)
    requires e.WellFormed() && Follows(FACTOR, rest)
    ensures var r := PowerFrom(run, Input(Print(e, BASE) + rest, false), depth);
            if Fits(e, BASE, depth) then r == ParsedPower(run.Prefix(), Tree(e), Input(rest, false)) else r.base.Null?
    decreases |Print(e, BASE)|, 3
  {
    BodyStartsBase(e);
    ReadBase(run, Input(Print(e, BASE) + rest, false), depth);
    ReadsBase(e, rest, depth);
  }

  lemma {:induction false} ReadsFactor<N>(run: Run, e: Ast<N>, rest: seq<Token<N>>, depth: nat)
    requires e.WellFormed() && Follows(LEVELS - 1, rest)
    ensures var r := FactorFrom(run, Input(Print(e, FACTOR) + rest, false), depth);
            if Fits(e, FACTOR, depth) then r == Parsed(TreeAfter(run, e), Input(rest, false)) else r.tree.Null?
    decreases |Print(e, FACTOR)|, 6
  {
    if e.Unary? {
      assert Print(e, FACTOR) + rest == [UnaryToken(e.op)] + (Print(e.arg, FACTOR) + rest);
      ReadUnary(run, e.op, Print(e.arg, FACTOR) + rest, depth);
      ReadsFactor(run.Then(e.op), e.arg, rest, depth);
    } else if Level(e) == FACTOR {
      ReadsPow(run, e, rest, depth);
    } else {
      assert Print(e, FACTOR) == Print(e, BASE);
      ReadsPlainPower(run, e, rest, depth);
    }
  }

  lemma {:induction false} ReadsPow<N>(run: Run, e: Ast<N>, rest: seq<Token<N>>, depth: nat)
    requires e.WellFormed() && e.Operation? && e.fn == Pow && Follows(LEVELS - 1, rest)
    ensures var r := FactorFrom(run, Input(Print(e, FACTOR) + rest, false), depth);
            if Fits(e, FACTOR, depth) then r == Parsed(TreeAfter(run, e), Input(rest, false)) else r.tree.Null?
    decreases |Print(e, FACTOR)|, 5
  {
    var exponent := Print(e.right, FACTOR);
    var more := Input([Infix(Pow)] + (exponent + rest), false);
    Associative(Print(e.left, BASE), [Infix(Pow)], exponent, rest);
    assert Print(e, FACTOR) + rest == Print(e.left, BASE) + more.rest;
    ReadsPlainPower(run, e.left, more.rest, depth);
    assert more.Next() == Input(exponent + rest, false);
    ReadsFactor(START, e.right, rest, depth);
    FromStart(more.Next(), depth);
  }

  lemma {:induction false} ReadsLevel<N>(k: nat, e: Ast<N>, rest: seq<Token<N>>, depth: nat)
    requires e.WellFormed() && k <= LEVELS
    requires Follows(if k == LEVELS then k - 1 else k, rest)
    ensures var r := ParseLevel(k, Input(Print(e, k) + rest, false), depth);
            if !Fits(e, k, depth) then r.tree.Null?
            else if k == LEVELS then r == Parsed(Tree(e), Input(rest, false))
            else r == ParseChain(k, Tree(e), Input(rest, false), depth)
    decreases |Print(e, k)|, 26 - 2 * k
  {
    if k == LEVELS {
      ReadsFactor(START, e, rest, depth);
      FromStart(Input(Print(e, k) + rest, false), depth);
    } else if Level(e) != k {
      ReadsTighter(k, e, rest, depth);
    } else {
      ReadsOperation(k, e, rest, depth);
    }
  }

  lemma {:induction false} ReadsTighter<N>(k: nat, e: Ast<N>, rest: seq<Token<N>>, depth: nat)
    requires e.WellFormed() && k < LEVELS && Level(e) != k && Follows(k, rest)
    ensures var r := ParseLevel(k, Input(Print(e, k) + rest, false), depth);
            if !Fits(e, k, depth) then r.tree.Null? else r == ParseChain(k, Tree(e), Input(rest, false), depth)
    decreases |Print(e, k)|, 25 - 2 * k
  {
    assert Print(e, k) == Print(e, k + 1);
    ReadsLevel(k + 1, e, rest, depth);
    ChainStops(k + 1, Tree(e), rest, depth);
    Descend(k, Input(Print(e, k) + rest, false), depth);
  }

  lemma {:induction false} ReadsOperation<N>(k: nat, e: Ast<N>, rest: seq<Token<N>>, depth: nat)
    requires e.WellFormed() && k < LEVELS && Level(e) == k && Follows(k, rest)
    ensures var r := ParseLevel(k, Input(Print(e, k) + rest, false), depth);
            if !Fits(e, k, depth) then r.tree.Null? else r == ParseChain(k, Tree(e), Input(rest, false), depth)
    decreases |Print(e, k)|, 25 - 2 * k
  {
    var right := Print(e.right, k + 1);
    var t: Token<N> := OperatorToken(e.fn);
    var more := [t] + (right + rest);
    Associative(Print(e.left, k), [t], right, rest);
    assert Print(e, k) + rest == Print(e.left, k) + more;
    ReadsLevel(k, e.left, more, depth);
    if Fits(e.left, k, depth) {
      assert Input(more, false).Next() == Input(right + rest, false);
      ChainStep(k, Tree(e.left), Input(more, false), depth);
      ReadsLevel(k + 1, e.right, rest, depth);
      ChainStops(k + 1, Tree(e.right), rest, depth);
    }
  }

  /** A chain ends in front of an operator that binds less tightly. */
  lemma ChainStops<N>(k: nat, left: Expr<N>, rest: seq<Token<N>>, depth: nat)
    requires 0 < k && !left.Null? && Follows(k - 1, rest)
    ensures k < LEVELS ==> ParseChain(k, left, Input(rest, false), depth) == Parsed(left, Input(rest, false))
  {
  }
}
