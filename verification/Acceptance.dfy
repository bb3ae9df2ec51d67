/** The parser accepts nothing but printed expressions. */
module Acceptance {
  import opened TinyExpr
  import opened Grammar
  import opened Printing
  import opened Compiler

  // ----- Unary runs -----

  function OperatorOfToken<N>(t: Token<N>): UnaryOp
    requires IsUnary(t)
  {
    if t.fn == Sub then Minus else if t.fn == Add then Plus else Not
  }

  /** A unary operator in front is read, and the rest is parsed with it remembered. */
  lemma TakeUnary<N>(run: Run, input: Input<N>, depth: nat)
    requires IsUnary(input.Current())
    ensures input.rest != [] && input.rest == [UnaryToken(OperatorOfToken(input.Current()))] + input.Next().rest
    ensures PowerFrom(run, input, depth) == PowerFrom(run.Then(OperatorOfToken(input.Current())), input.Next(), depth)
    ensures FactorFrom(run, input, depth) == FactorFrom(run.Then(OperatorOfToken(input.Current())), input.Next(), depth)
  {
    var op := OperatorOfToken(input.Current());
    assert input.rest == [input.rest[0]] + input.rest[1..];
    assert input == Input([UnaryToken(op)] + input.rest[1..], false);
    ReadUnary(run, op, input.rest[1..], depth);
  }

  lemma NoUnary<N>(run: Run, input: Input<N>, depth: nat)
    requires !IsUnary(input.Current())
    ensures PowerFrom(run, input, depth)
         == ParsedPower(run.Prefix(), ParseBase(input, depth).tree, ParseBase(input, depth).input)
  {
  }

  // ----- The rules -----

  /** `e` is what has been read from `input` down to `rest`, by a rule of level `k`. */
  ghost predicate IsRead<N>(e: Ast<N>, k: nat, input: Input<N>, rest: seq<Token<N>>) {
    e.WellFormed() && Level(e) >= k && !input.failed && input.rest == Body(e) + rest
  }

  lemma {:induction false} BaseIsRead<N>(input: Input<N>, depth: nat) returns (e: Ast<N>)
    requires !ParseBase(input, depth).input.failed
    ensures IsRead(e, BASE, input, ParseBase(input, depth).input.rest)
    decreases |input.rest|, 0
  {
    var r := ParseBase(input, depth);
    assert input.rest != [] && input.rest == [input.rest[0]] + input.rest[1..];
    match input.Current()
    case Number(v) => e := Num(v);
    case VariableName(s) => e := Name(s);
    case FunctionName(name, params, pure) => e := CallIsRead(input, depth);
    case Open =>
      var inner := LevelIsRead(0, input.Next(), depth + 1);
      e := Paren(inner);
      CloseIsRead(ParseLevel(0, input.Next(), depth + 1).input);
      assert input.rest == [Open] + (Body(inner) + ([Close] + r.input.rest));
  }

  lemma CloseIsRead<N>(input: Input<N>)
    requires input.Current().Close?
    ensures input.rest == [Close] + input.Next().rest
  {
  }

  lemma {:induction false} CallIsRead<N>(input: Input<N>, depth: nat) returns (e: Ast<N>)
    requires !ParseBase(input, depth).input.failed && input.Current().FunctionName?
    ensures IsRead(e, BASE, input, ParseBase(input, depth).input.rest)
    decreases |input.rest|, 0, 0
  {
    var t, after := input.Current(), input.Next();
    assert input.rest == [t] + after.rest;
    if t.params == 0 {
      e := ConstantIsRead(input, depth);
    } else if t.params == 1 {
      FromStart(after, depth + 1);
      var arg := PowerIsRead(START, after, depth + 1);
      e := Call(t.name, t.pure, [arg]);
      ParameterIsRead(e, arg, input, ParsePower(after, depth + 1).input.rest);
    } else {
      var args := ArgsAreRead(Named(t.name, t.params), t.pure, [], after, depth + 1);
      e := Call(t.name, t.pure, args);
      ListIsRead(e, input, ParseBase(input, depth).input.rest);
    }
  }

  lemma {:induction false} ConstantIsRead<N>(input: Input<N>, depth: nat) returns (e: Ast<N>)
    requires !ParseBase(input, depth).input.failed && input.Current().FunctionName? && input.Current().params == 0
    ensures IsRead(e, BASE, input, ParseBase(input, depth).input.rest)
  {
    var t, after := input.Current(), input.Next();
    if after.Current().Open? {
      var rest := after.Next().Next().rest;
      e := EmptyCall(t.name, t.pure);
      CloseIsRead(after.Next());
      assert after.rest == [Open] + ([Close] + rest);
      assert input.rest == [t] + ([Open] + ([Close] + rest));
      assert Body(e) + rest == [t] + ([Open] + ([Close] + rest));
    } else {
      e := Call(t.name, t.pure, []);
    }
  }

  lemma {:induction false} ParameterIsRead<N>(e: Ast<N>, arg: Ast<N>, input: Input<N>, rest: seq<Token<N>>)
    requires e.Call? && e.args == [arg] && input.rest != [] && input.rest[0] == FunctionName(e.name, 1, e.pure)
    requires IsRead(arg, POWER, input.Next(), rest)
    ensures IsRead(e, BASE, input, rest)
  {
    assert input.rest == [input.rest[0]] + (Body(arg) + rest);
  }

  lemma {:induction false} ListIsRead<N>(e: Ast<N>, input: Input<N>, rest: seq<Token<N>>)
    requires e.Call? && |e.args| > 1 && !input.failed && input.Next().rest != [] && input.Next().rest[0].Open?
    requires input.rest != [] && input.rest[0] == FunctionName(e.name, |e.args|, e.pure)
    requires input.Next().rest[1..] == PrintArgs(e.args) + ([Close] + rest)
    ensures input.rest == Body(e) + rest
  {
    var after := input.Next().rest;
    assert after == [Open] + (PrintArgs(e.args) + ([Close] + rest));
    assert input.rest == [input.rest[0]] + after;
  }

  lemma {:induction false} ArgsAreRead<N>(fn: Fn, pure: bool, done: seq<Expr<N>>, input: Input<N>, depth: nat)
    returns (args: seq<Ast<N>>)
    requires |done| < fn.Arity() && input.rest != [] && !ParseArgs(fn, pure, done, input, depth).input.failed
    ensures |args| == fn.Arity() - |done| && forall i :: 0 <= i < |args| ==> args[i].WellFormed()
    ensures !input.failed
    ensures input.rest[1..] == PrintArgs(args) + ([Close] + ParseArgs(fn, pure, done, input, depth).input.rest)
    decreases |input.rest|, 0
  {
    var arg := ParseLevel(1, input.Next(), depth);
    var first := LevelIsRead(1, input.Next(), depth);
    if arg.input.Current().Sep? && |done| + 1 < fn.Arity() {
      var more := ArgsAreRead(fn, pure, done + [arg.tree], arg.input, depth);
      args := [first] + more;
      MoreArgs(first, more, input.rest[1..], arg.input, ParseArgs(fn, pure, done, input, depth).input.rest);
    } else {
      args := [first];
      CloseIsRead(arg.input);
    }
  }

  lemma {:induction false} MoreArgs<N>(
    first: Ast<N>, more: seq<Ast<N>>, tokens: seq<Token<N>>, input: Input<N>, rest: seq<Token<N>>
  )
    requires Level(first) >= 1 && more != [] && tokens == Body(first) + input.rest && input.Current().Sep?
    requires input.rest[1..] == PrintArgs(more) + ([Close] + rest)
    ensures tokens == PrintArgs([first] + more) + ([Close] + rest)
  {
    var args, close := [first] + more, [Close] + rest;
    assert args[1..] == more && PrintArgs(args) == Body(first) + [Sep] + PrintArgs(more);
    assert input.rest == [Sep] + (PrintArgs(more) + close);
    Associative(Body(first), [Sep], PrintArgs(more), close);
  }

  lemma {:induction false} UnaryIsRead<N>(op: UnaryOp, arg: Ast<N>, k: nat, input: Input<N>, rest: seq<Token<N>>)
    requires (k == POWER || k == FACTOR) && IsRead(arg, k, input.Next(), rest)
    requires input.rest == [UnaryToken(op)] + input.Next().rest
    ensures IsRead(Unary(op, arg), k, input, rest)
  {
    assert input.rest == [UnaryToken(op)] + (Body(arg) + rest);
  }

  lemma {:induction false} PowerIsRead<N>(run: Run, input: Input<N>, depth: nat) returns (e: Ast<N>)
    requires !PowerFrom(run, input, depth).input.failed
    ensures IsRead(e, POWER, input, PowerFrom(run, input, depth).input.rest)
    decreases |input.rest|, 1
  {
    if IsUnary(input.Current()) {
      TakeUnary(run, input, depth);
      var op := OperatorOfToken(input.Current());
      var arg := PowerIsRead(run.Then(op), input.Next(), depth);
      e := Unary(op, arg);
      UnaryIsRead(op, arg, POWER, input, PowerFrom(run.Then(op), input.Next(), depth).input.rest);
    } else {
      NoUnary(run, input, depth);
      e := BaseIsRead(input, depth);
    }
  }

  lemma {:induction false} FactorIsRead<N>(run: Run, input: Input<N>, depth: nat) returns (e: Ast<N>)
    requires !FactorFrom(run, input, depth).input.failed
    ensures IsRead(e, FACTOR, input, FactorFrom(run, input, depth).input.rest)
    decreases |input.rest|, 2
  {
    if IsUnary(input.Current()) {
      TakeUnary(run, input, depth);
      var op := OperatorOfToken(input.Current());
      var arg := FactorIsRead(run.Then(op), input.Next(), depth);
      e := Unary(op, arg);
      UnaryIsRead(op, arg, FACTOR, input, FactorFrom(run.Then(op), input.Next(), depth).input.rest);
    } else {
      NoUnary(run, input, depth);
      e := PowIsRead(run, input, depth);
    }
  }

  lemma {:induction false} PowIsRead<N>(run: Run, input: Input<N>, depth: nat) returns (e: Ast<N>)
    requires !FactorFrom(run, input, depth).input.failed
    requires PowerFrom(run, input, depth)
          == ParsedPower(run.Prefix(), ParseBase(input, depth).tree, ParseBase(input, depth).input)
    ensures IsRead(e, FACTOR, input, FactorFrom(run, input, depth).input.rest)
    decreases |input.rest|, 1
  {
    var more := ParseBase(input, depth).input;
    e := BaseIsRead(input, depth);
    if Continues(FACTOR, more.Current()) {
      FromStart(more.Next(), depth);
      var exponent := FactorIsRead(START, more.Next(), depth);
      OperationIsRead(FACTOR, e, exponent, input.rest, more, ParseFactor(more.Next(), depth).input.rest);
      e := Operation(Pow, e, exponent);
    }
  }

  /** An operator and its right operand behind a left operand. */
  lemma {:induction false} OperationIsRead<N>(
    k: nat, l: Ast<N>, r: Ast<N>, tokens: seq<Token<N>>, more: Input<N>, rest: seq<Token<N>>
  )
    requires k <= FACTOR && Continues(k, more.Current())
    requires IsRead(r, RightLevel(OperatorOf(k, more.Current())), more.Next(), rest)
    requires Level(l) >= LeftLevel(OperatorOf(k, more.Current())) && tokens == Body(l) + more.rest
    ensures LevelOf(OperatorOf(k, more.Current())) == k
    ensures tokens == Body(Operation(OperatorOf(k, more.Current()), l, r)) + rest
  {
    var fn := OperatorOf(k, more.Current());
    assert more.rest == [OperatorToken(fn)] + more.Next().rest;
    Regroup(Body(l), [OperatorToken(fn)], Body(r), rest);
  }

  lemma Regroup<T>(a: seq<T>, b: seq<T>, c: seq<T>, d: seq<T>)
    ensures a + (b + (c + d)) == a + b + c + d
  {
  }

  lemma {:induction false} LevelIsRead<N>(k: nat, input: Input<N>, depth: nat) returns (e: Ast<N>)
    requires k <= LEVELS && !ParseLevel(k, input, depth).input.failed
    ensures IsRead(e, k, input, ParseLevel(k, input, depth).input.rest)
    decreases |input.rest|, 10 - k
  {
    if k == LEVELS {
      FromStart(input, depth);
      e := FactorIsRead(START, input, depth);
    } else {
      Descend(k, input, depth);
      var first := ParseLevel(k + 1, input, depth);
      var l := LevelIsRead(k + 1, input, depth);
      e := ChainIsRead(k, l, first.tree, input.rest, first.input, depth);
    }
  }

  lemma {:induction false} ChainIsRead<N>(
    k: nat, l: Ast<N>, left: Expr<N>, tokens: seq<Token<N>>, more: Input<N>, depth: nat
  )
    returns (e: Ast<N>)
    requires k < LEVELS && !left.Null? && !ParseChain(k, left, more, depth).input.failed
    requires l.WellFormed() && Level(l) >= k && tokens == Body(l) + more.rest
    ensures e.WellFormed() && Level(e) >= k && tokens == Body(e) + ParseChain(k, left, more, depth).input.rest
    decreases |more.rest|, 0
  {
    e := l;
    if Continues(k, more.Current()) {
      ChainStep(k, left, more, depth);
      var right, fn := ParseLevel(k + 1, more.Next(), depth), OperatorOf(k, more.Current());
      var r := LevelIsRead(k + 1, more.Next(), depth);
      OperationIsRead(k, l, r, tokens, more, right.input.rest);
      e := ChainIsRead(k, Operation(fn, l, r), Binary(fn, left, right.tree), tokens, right.input, depth);
    }
  }

  // ----- te_compile -----

  /** Every accepted text is a printed expression. */
  lemma {:induction false} AcceptedIsPrinted<N>(ar: Arith<N>, tokens: seq<Token<N>>) returns (e: Ast<N>)
    requires Compile(ar, tokens).Ok? && forall i :: 0 <= i < |tokens| ==> !tokens[i].End?
    ensures e.WellFormed() && Print(e, 0) == tokens
  {
    var input := Input(tokens, false);
    e := LevelIsRead(0, input, 0);
    FirstOfRest(tokens, Body(e), ParseLevel(0, input, 0).input.rest);
    assert Body(e) + [] == Body(e);
  }

  lemma FirstOfRest<T>(all: seq<T>, read: seq<T>, rest: seq<T>)
    requires all == read + rest
    ensures rest != [] ==> |read| < |all| && all[|read|] == rest[0]
  {
  }

  /** te_compile accepts exactly the printed expressions that nest at most TE_MAX_DEPTH
      deep: with operators by precedence and associativity, and as many parentheses
      more as their author likes. */
  lemma {:induction false} AcceptsExactlyPrintings<N(!new)>(ar: Arith<N>, tokens: seq<Token<N>>)
    requires forall i :: 0 <= i < |tokens| ==> !tokens[i].End?
    ensures Compile(ar, tokens).Ok? <==>
      exists e: Ast<N> :: e.WellFormed() && Print(e, 0) == tokens && Nesting(e, 0) <= MAX_DEPTH
  {
    if Compile(ar, tokens).Ok? {
      var e := AcceptedIsPrinted(ar, tokens);
      CompileInvertsPrinting(ar, e);
    }
    if e: Ast<N> :| e.WellFormed() && Print(e, 0) == tokens && Nesting(e, 0) <= MAX_DEPTH {
      CompileInvertsPrinting(ar, e);
    }
  }

  /** Whatever te_compile accepts has the value of the expression that was written. */
  lemma {:induction false} AcceptedMeans<N(!new)>(ar: Arith<N>, tokens: seq<Token<N>>) returns (e: Ast<N>)
    requires Compile(ar, tokens).Ok? && forall i :: 0 <= i < |tokens| ==> !tokens[i].End?
    ensures e.WellFormed() && Print(e, 0) == tokens && Compile(ar, tokens).tree == Fold(ar, Tree(e))
    ensures forall slots :: Eval(ar, slots, Compile(ar, tokens).tree) == CollapsedMeaning(ar, slots, START, e)
    ensures UnaryLaws(ar) && (SignlessZero(ar) || NoNegatedNot(START, e)) ==>
              forall slots :: Eval(ar, slots, Compile(ar, tokens).tree) == Meaning(ar, slots, e)
  {
    e := AcceptedIsPrinted(ar, tokens);
    CompileInvertsPrinting(ar, e);
  }
}
