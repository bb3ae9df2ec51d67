/** A syntax error is reported at the first token with which the text stops being the
    beginning of any expression. */
module ErrorPosition {
  import opened TinyExpr
  import opened Grammar
  import opened Printing
  import opened Compiler
  import opened Acceptance

  /** Some expression, however deep, is printed with these tokens in front. */
  ghost predicate BeginsExpression<N(!new)>(tokens: seq<Token<N>>) {
    exists e: Ast<N> :: e.WellFormed() && tokens <= Print(e, 0)
  }

  // ----- What has been read can be completed -----

  /** A rule of level `k` has read `read` from `input` and stopped in front of `rest`; with
      `missing` behind it that would be the expression `e`. */
  ghost predicate IsBegun<N>(
    e: Ast<N>, k: nat, input: Input<N>, rest: seq<Token<N>>, read: seq<Token<N>>, missing: seq<Token<N>>
  ) {
    e.WellFormed() && Level(e) >= k && input.rest == read + rest && Body(e) == read + missing
  }

  /** The rule has stopped at a syntax error. */
  ghost predicate Stopped<N>(tree: Expr<N>, input: Input<N>) {
    !tree.Null? && input.failed
  }

  function Numbers<N>(any: N, n: nat): seq<Ast<N>> {
    seq(n, _ => Num(any))
  }

  lemma {:induction false} PrintMore<N>(first: Ast<N>, more: seq<Ast<N>>)
    requires Level(first) >= 1
    ensures PrintArgs([first] + more) == Body(first) + if more == [] then [] else [Sep] + PrintArgs(more)
  {
    if more != [] {
      assert ([first] + more)[1..] == more;
    }
  }

  lemma {:induction false} BaseIsBegun<N>(any: N, input: Input<N>, depth: nat)
    returns (e: Ast<N>, read: seq<Token<N>>, missing: seq<Token<N>>)
    requires !input.failed && Stopped(ParseBase(input, depth).tree, ParseBase(input, depth).input)
    ensures IsBegun(e, BASE, input, ParseBase(input, depth).input.rest, read, missing)
    decreases |input.rest|, 0, 1
  {
    var t := input.Current();
    if t.FunctionName? {
      e, read, missing := CallIsBegun(any, input, depth);
    } else if t.Open? {
      var inner := ParseLevel(0, input.Next(), depth + 1);
      if inner.input.failed {
        var arg, r, m := LevelIsBegun(any, 0, input.Next(), depth + 1);
        e, read, missing := Paren(arg), [Open] + r, m + [Close];
        ParenIsBegun(arg, input, inner.input.rest, r, m);
      } else {
        var arg := LevelIsRead(0, input.Next(), depth + 1);
        e, read, missing := Paren(arg), [Open] + Body(arg), [] + [Close];
        ParenIsBegun(arg, input, inner.input.rest, Body(arg), []);
      }
    } else {
      e, read, missing := Num(any), [], [Number(any)];
    }
  }

  lemma {:induction false} ParenIsBegun<N>(
    arg: Ast<N>, input: Input<N>, rest: seq<Token<N>>, read: seq<Token<N>>, missing: seq<Token<N>>
  )
    requires input.Current().Open? && IsBegun(arg, 0, input.Next(), rest, read, missing)
    ensures IsBegun(Paren(arg), BASE, input, rest, [Open] + read, missing + [Close])
  {
    assert input.rest == [Open] + (read + rest);
    assert Body(Paren(arg)) == [Open] + (read + missing) + [Close];
  }

  lemma {:induction false} CallIsBegun<N>(any: N, input: Input<N>, depth: nat)
    returns (e: Ast<N>, read: seq<Token<N>>, missing: seq<Token<N>>)
    requires !input.failed && Stopped(ParseBase(input, depth).tree, ParseBase(input, depth).input)
    requires input.Current().FunctionName?
    ensures IsBegun(e, BASE, input, ParseBase(input, depth).input.rest, read, missing)
    decreases |input.rest|, 0, 0
  {
    var t, after := input.Current(), input.Next();
    if t.params == 0 {
      assert input.rest == [t] + after.rest && after.rest == [Open] + after.Next().rest;
      e, read, missing := EmptyCall(t.name, t.pure), [t, Open], [Close];
    } else if t.params == 1 {
      FromStart(after, depth + 1);
      var arg, r, m := PowerIsBegun(any, START, after, depth + 1);
      e, read, missing := Call(t.name, t.pure, [arg]), [t] + r, m;
      ParameterIsBegun(t, arg, input, ParsePower(after, depth + 1).input.rest, r, m);
    } else if !after.Current().Open? {
      var args := Numbers(any, t.params);
      assert input.rest == [t] + after.rest;
      e, read, missing := Call(t.name, t.pure, args), [t], [Open] + PrintArgs(args) + [Close];
    } else {
      var args, r, m := ArgsAreBegun(any, Named(t.name, t.params), t.pure, [], after, depth + 1);
      e, read, missing := Call(t.name, t.pure, args), [t, Open] + r, m;
      ListIsBegun(t, args, input, ParseBase(input, depth).input.rest, r, m);
    }
  }

  lemma {:induction false} ParameterIsBegun<N>(
    t: Token<N>, arg: Ast<N>, input: Input<N>, rest: seq<Token<N>>, read: seq<Token<N>>, missing: seq<Token<N>>
  )
    requires t == input.Current() && t.FunctionName? && t.params == 1
    requires IsBegun(arg, POWER, input.Next(), rest, read, missing)
    ensures IsBegun(Call(t.name, t.pure, [arg]), BASE, input, rest, [t] + read, missing)
  {
    assert input.rest == [t] + (read + rest);
    assert Body(Call(t.name, t.pure, [arg])) == [t] + (read + missing);
  }

  lemma {:induction false} ListIsBegun<N>(
    t: Token<N>, args: seq<Ast<N>>, input: Input<N>, rest: seq<Token<N>>, read: seq<Token<N>>, missing: seq<Token<N>>
  )
    requires t == input.Current() && t.FunctionName? && t.params == |args| > 1 && input.Next().Current().Open?
    requires forall i :: 0 <= i < |args| ==> args[i].WellFormed()
    requires input.Next().rest[1..] == read + rest && PrintArgs(args) + [Close] == read + missing
    ensures IsBegun(Call(t.name, t.pure, args), BASE, input, rest, [t, Open] + read, missing)
  {
    assert input.rest == [t, Open] + (read + rest);
    assert Body(Call(t.name, t.pure, args)) == [t, Open] + (PrintArgs(args) + [Close]);
    assert [t, Open] + (read + missing) == [t, Open] + read + missing;
  }

  /** What follows a parameter if `n` more are missing. */
  function Ending<N>(any: N, n: nat): seq<Token<N>> {
    (if n == 0 then [] else [Sep] + PrintArgs(Numbers(any, n))) + [Close]
  }

  lemma {:induction false} FirstIsBegun<N>(any: N, first: Ast<N>, n: nat, read: seq<Token<N>>, missing: seq<Token<N>>)
    requires Level(first) >= 1 && Body(first) == read + missing
    ensures PrintArgs([first] + Numbers(any, n)) + [Close] == read + (missing + Ending(any, n))
  {
    PrintMore(first, Numbers(any, n));
    assert Body(first) + (if n == 0 then [] else [Sep] + PrintArgs(Numbers(any, n))) + [Close]
        == Body(first) + Ending(any, n);
  }

  lemma {:induction false} MoreIsBegun<N>(
    first: Ast<N>, more: seq<Ast<N>>, input: Input<N>, rest: seq<Token<N>>, read: seq<Token<N>>, missing: seq<Token<N>>
  )
    requires Level(first) >= 1 && more != [] && input.Current().Sep?
    requires input.rest[1..] == read + rest && PrintArgs(more) + [Close] == read + missing
    ensures Body(first) + input.rest == Body(first) + [Sep] + read + rest
    ensures PrintArgs([first] + more) + [Close] == Body(first) + [Sep] + read + missing
  {
    PrintMore(first, more);
    assert input.rest == [Sep] + (read + rest);
    assert Body(first) + ([Sep] + PrintArgs(more)) + [Close] == Body(first) + [Sep] + (PrintArgs(more) + [Close]);
    assert Body(first) + [Token<N>.Sep] + (read + missing) == Body(first) + [Sep] + read + missing;
  }

  lemma {:induction false} ArgsAreBegun<N>(any: N, fn: Fn, pure: bool, done: seq<Expr<N>>, input: Input<N>, depth: nat)
    returns (args: seq<Ast<N>>, read: seq<Token<N>>, missing: seq<Token<N>>)
    requires |done| < fn.Arity() && input.rest != [] && !input.failed
    requires Stopped(ParseArgs(fn, pure, done, input, depth).tree, ParseArgs(fn, pure, done, input, depth).input)
    ensures |args| == fn.Arity() - |done| && forall i :: 0 <= i < |args| ==> args[i].WellFormed()
    ensures input.rest[1..] == read + ParseArgs(fn, pure, done, input, depth).input.rest
    ensures PrintArgs(args) + [Close] == read + missing
    decreases |input.rest|, 0
  {
    var arg := ParseLevel(1, input.Next(), depth);
    var n := fn.Arity() - |done| - 1;
    if arg.input.failed {
      var first, r, m := LevelIsBegun(any, 1, input.Next(), depth);
      args, read, missing := [first] + Numbers(any, n), r, m + Ending(any, n);
      FirstIsBegun(any, first, n, r, m);
    } else {
      var first := LevelIsRead(1, input.Next(), depth);
      if arg.input.Current().Sep? && n > 0 {
        var more, r, m := ArgsAreBegun(any, fn, pure, done + [arg.tree], arg.input, depth);
        args, read, missing := [first] + more, Body(first) + [Sep] + r, m;
        MoreIsBegun(first, more, arg.input, ParseArgs(fn, pure, done, input, depth).input.rest, r, m);
      } else {
        args, read, missing := [first] + Numbers(any, n), Body(first), [] + Ending(any, n);
        FirstIsBegun(any, first, n, Body(first), []);
      }
    }
  }

  lemma {:induction false} UnaryIsBegun<N>(
    op: UnaryOp, arg: Ast<N>, k: nat, input: Input<N>, rest: seq<Token<N>>, read: seq<Token<N>>, missing: seq<Token<N>>
  )
    requires (k == POWER || k == FACTOR) && IsBegun(arg, k, input.Next(), rest, read, missing)
    requires input.rest == [UnaryToken(op)] + input.Next().rest
    ensures IsBegun(Unary(op, arg), k, input, rest, [UnaryToken(op)] + read, missing)
  {
    assert input.rest == [UnaryToken(op)] + (read + rest);
    assert Body(Unary(op, arg)) == [UnaryToken(op)] + (read + missing);
  }

  lemma {:induction false} PowerIsBegun<N>(any: N, run: Run, input: Input<N>, depth: nat)
    returns (e: Ast<N>, read: seq<Token<N>>, missing: seq<Token<N>>)
    requires !input.failed && Stopped(PowerFrom(run, input, depth).base, PowerFrom(run, input, depth).input)
    ensures IsBegun(e, POWER, input, PowerFrom(run, input, depth).input.rest, read, missing)
    decreases |input.rest|, 1
  {
    if IsUnary(input.Current()) {
      TakeUnary(run, input, depth);
      var op := OperatorOfToken(input.Current());
      var arg, r, m := PowerIsBegun(any, run.Then(op), input.Next(), depth);
      UnaryIsBegun(op, arg, POWER, input, PowerFrom(run, input, depth).input.rest, r, m);
      e, read, missing := Unary(op, arg), [UnaryToken(op)] + r, m;
    } else {
      NoUnary(run, input, depth);
      e, read, missing := BaseIsBegun(any, input, depth);
    }
  }

  lemma {:induction false} FactorIsBegun<N>(any: N, run: Run, input: Input<N>, depth: nat)
    returns (e: Ast<N>, read: seq<Token<N>>, missing: seq<Token<N>>)
    requires !input.failed && Stopped(FactorFrom(run, input, depth).tree, FactorFrom(run, input, depth).input)
    ensures IsBegun(e, FACTOR, input, FactorFrom(run, input, depth).input.rest, read, missing)
    decreases |input.rest|, 2
  {
    if IsUnary(input.Current()) {
      TakeUnary(run, input, depth);
      var op := OperatorOfToken(input.Current());
      var arg, r, m := FactorIsBegun(any, run.Then(op), input.Next(), depth);
      UnaryIsBegun(op, arg, FACTOR, input, FactorFrom(run, input, depth).input.rest, r, m);
      e, read, missing := Unary(op, arg), [UnaryToken(op)] + r, m;
    } else {
      NoUnary(run, input, depth);
      var more := ParseBase(input, depth).input;
      if more.failed {
        e, read, missing := BaseIsBegun(any, input, depth);
      } else {
        var l := BaseIsRead(input, depth);
        FromStart(more.Next(), depth);
        var r, rr, m := FactorIsBegun(any, START, more.Next(), depth);
        OperationIsBegun(FACTOR, l, r, input.rest, more, ParseFactor(more.Next(), depth).input.rest, rr, m);
        e, read, missing := Operation(Pow, l, r), Body(l) + [Infix(Pow)] + rr, m;
      }
    }
  }

  /** An operator and a part of its right operand behind a left operand. */
  lemma {:induction false} OperationIsBegun<N>(
    k: nat, l: Ast<N>, r: Ast<N>, tokens: seq<Token<N>>, more: Input<N>, rest: seq<Token<N>>,
    read: seq<Token<N>>, missing: seq<Token<N>>
  )
    requires k <= FACTOR && Continues(k, more.Current())
    requires IsBegun(r, RightLevel(OperatorOf(k, more.Current())), more.Next(), rest, read, missing)
    requires l.WellFormed() && Level(l) >= LeftLevel(OperatorOf(k, more.Current())) && tokens == Body(l) + more.rest
    ensures
      var fn := OperatorOf(k, more.Current());
      && LevelOf(fn) == k && Operation(fn, l, r).WellFormed()
      && tokens == Body(l) + [OperatorToken(fn)] + read + rest
      && Body(Operation(fn, l, r)) == Body(l) + [OperatorToken(fn)] + read + missing
  {
    var fn := OperatorOf(k, more.Current());
    assert more.rest == [OperatorToken(fn)] + more.Next().rest;
    Regroup(Body(l), [OperatorToken(fn)], read, rest);
    Regroup(Body(l), [OperatorToken(fn)], read, missing);
  }

  lemma {:induction false} LevelIsBegun<N>(any: N, k: nat, input: Input<N>, depth: nat)
    returns (e: Ast<N>, read: seq<Token<N>>, missing: seq<Token<N>>)
    requires k <= LEVELS && !input.failed && Stopped(ParseLevel(k, input, depth).tree, ParseLevel(k, input, depth).input)
    ensures IsBegun(e, k, input, ParseLevel(k, input, depth).input.rest, read, missing)
    decreases |input.rest|, 10 - k
  {
    if k == LEVELS {
      FromStart(input, depth);
      e, read, missing := FactorIsBegun(any, START, input, depth);
    } else {
      Descend(k, input, depth);
      var first := ParseLevel(k + 1, input, depth);
      if first.input.failed {
        e, read, missing := LevelIsBegun(any, k + 1, input, depth);
      } else {
        var l := LevelIsRead(k + 1, input, depth);
        e, read, missing := ChainIsBegun(any, k, l, first.tree, input.rest, first.input, depth);
      }
    }
  }

  lemma {:induction false} ChainIsBegun<N>(
    any: N, k: nat, l: Ast<N>, left: Expr<N>, tokens: seq<Token<N>>, more: Input<N>, depth: nat
  )
    returns (e: Ast<N>, read: seq<Token<N>>, missing: seq<Token<N>>)
    requires k < LEVELS && !left.Null? && !more.failed
    requires Stopped(ParseChain(k, left, more, depth).tree, ParseChain(k, left, more, depth).input)
    requires l.WellFormed() && Level(l) >= k && tokens == Body(l) + more.rest
    ensures e.WellFormed() && Level(e) >= k && Body(e) == read + missing
    ensures tokens == read + ParseChain(k, left, more, depth).input.rest
    decreases |more.rest|, 0
  {
    ChainStep(k, left, more, depth);
    var right, fn := ParseLevel(k + 1, more.Next(), depth), OperatorOf(k, more.Current());
    if right.input.failed {
      var r, rr, m := LevelIsBegun(any, k + 1, more.Next(), depth);
      OperationIsBegun(k, l, r, tokens, more, right.input.rest, rr, m);
      e, read, missing := Operation(fn, l, r), Body(l) + [OperatorToken(fn)] + rr, m;
    } else {
      var r := LevelIsRead(k + 1, more.Next(), depth);
      OperationIsRead(k, l, r, tokens, more, right.input.rest);
      var all := Binary(fn, left, right.tree);
      e, read, missing := ChainIsBegun(any, k, Operation(fn, l, r), all, tokens, right.input, depth);
    }
  }

  // ----- The parser does not look ahead -----

  ghost predicate SameTokens<N>(a: seq<Token<N>>, b: seq<Token<N>>, n: nat) {
    n == 0 || (a != [] && b != [] && a[0] == b[0] && SameTokens(a[1..], b[1..], n - 1))
  }

  /** The next `n` tokens are the same. */
  ghost predicate Alike<N>(a: Input<N>, b: Input<N>, n: nat) {
    a.failed == b.failed && SameTokens(a.rest, b.rest, n)
  }

  lemma {:induction false} PrefixIsSame<N>(a: seq<Token<N>>, b: seq<Token<N>>, n: nat)
    requires n <= |a| && n <= |b| && a[..n] == b[..n]
    ensures SameTokens(a, b, n)
    decreases n
  {
    if n > 0 {
      assert a[0] == a[..n][0] && b[0] == b[..n][0];
      assert a[1..][..n - 1] == a[..n][1..] && b[1..][..n - 1] == b[..n][1..];
      PrefixIsSame(a[1..], b[1..], n - 1);
    }
  }

  /** How many tokens have been read. */
  function Used<N>(input: Input<N>, more: Input<N>): int {
    |input.rest| - |more.rest|
  }

  /** From `a` to `more` the parser has stayed within the next `n` tokens, and it does the
      same from `b` to `more'`. */
  ghost predicate SameRead<N>(a: Input<N>, more: Input<N>, b: Input<N>, more': Input<N>, n: nat) {
    0 <= Used(a, more) == Used(b, more') < n && Alike(more, more', n - Used(a, more))
  }

  lemma AlikeNext<N>(a: Input<N>, b: Input<N>, n: nat)
    requires Alike(a, b, n) && n > 0
    ensures a.Current() == b.Current() && Alike(a.Next(), b.Next(), n - 1)
    ensures Used(a, a.Next()) == 1 == Used(b, b.Next())
  {
  }

  /** The same twice, one behind the other. */
  lemma {:induction false} ReadOn<N>(
    a: Input<N>, x: Input<N>, y: Input<N>, b: Input<N>, x': Input<N>, y': Input<N>, n: nat
  )
    requires SameRead(a, x, b, x', n) && SameRead(x, y, x', y', n - Used(a, x))
    ensures SameRead(a, y, b, y', n)
  {
    assert n - Used(a, x) - Used(x, y) == n - Used(a, y);
  }

  lemma {:induction false} SignsAlike<N>(negative: bool, a: Input<N>, b: Input<N>, n: nat)
    requires Alike(a, b, n) && Used(a, Signs(negative, a).1) < n
    ensures Signs(negative, b).0 == Signs(negative, a).0
    ensures SameRead(a, Signs(negative, a).1, b, Signs(negative, b).1, n)
    decreases |a.rest|
  {
    AlikeNext(a, b, n);
    if IsSign(a.Current()) {
      SignsAlike(negative != (a.Current().fn == Sub), a.Next(), b.Next(), n - 1);
    }
  }

  lemma {:induction false} NotRunAlike<N>(nots: Nots, a: Input<N>, b: Input<N>, n: nat)
    requires Alike(a, b, n) && Used(a, NotRun(nots, a).1) < n
    ensures NotRun(nots, b).0 == NotRun(nots, a).0
    ensures SameRead(a, NotRun(nots, a).1, b, NotRun(nots, b).1, n)
    decreases |a.rest|
  {
    AlikeNext(a, b, n);
    if IsUnary(a.Current()) {
      NotRunAlike(if a.Current().fn == LogicalNot then nots.Toggle() else nots, a.Next(), b.Next(), n - 1);
    }
  }

  lemma {:induction false} BaseAlike<N>(a: Input<N>, b: Input<N>, depth: nat, n: nat)
    requires Alike(a, b, n) && Used(a, ParseBase(a, depth).input) < n
    ensures ParseBase(b, depth).tree == ParseBase(a, depth).tree
    ensures SameRead(a, ParseBase(a, depth).input, b, ParseBase(b, depth).input, n)
    decreases |a.rest|, 0, 1
  {
    AlikeNext(a, b, n);
    if depth < MAX_DEPTH {
      match a.Current()
      case FunctionName(_, _, _) => CallAlike(a, b, depth, n);
      case Open => GroupAlike(a, b, depth, n);
      case _ =>
    }
  }

  lemma {:induction false} GroupAlike<N>(a: Input<N>, b: Input<N>, depth: nat, n: nat)
    requires Alike(a, b, n) && Used(a, ParseBase(a, depth).input) < n && a.Current().Open? && depth < MAX_DEPTH
    ensures ParseBase(b, depth).tree == ParseBase(a, depth).tree
    ensures SameRead(a, ParseBase(a, depth).input, b, ParseBase(b, depth).input, n)
    decreases |a.rest|, 0, 0
  {
    AlikeNext(a, b, n);
    LevelAlike(0, a.Next(), b.Next(), depth + 1, n - 1);
    var inner, inner' := ParseLevel(0, a.Next(), depth + 1).input, ParseLevel(0, b.Next(), depth + 1).input;
    ReadOn(a, a.Next(), inner, b, b.Next(), inner', n);
    AlikeNext(inner, inner', n - Used(a, inner));
  }

  lemma {:induction false} CallAlike<N>(a: Input<N>, b: Input<N>, depth: nat, n: nat)
    requires Alike(a, b, n) && Used(a, ParseBase(a, depth).input) < n && a.Current().FunctionName? && depth < MAX_DEPTH
    ensures ParseBase(b, depth).tree == ParseBase(a, depth).tree
    ensures SameRead(a, ParseBase(a, depth).input, b, ParseBase(b, depth).input, n)
    decreases |a.rest|, 0, 0
  {
    AlikeNext(a, b, n);
    var t, more, more' := a.Current(), a.Next(), b.Next();
    if t.params == 0 {
      ConstantAlike(a, b, depth, n);
    } else if t.params == 1 {
      PowerAlike(more, more', depth + 1, n - 1);
    } else {
      AlikeNext(more, more', n - 1);
      if more.Current().Open? {
        ListAlike(a, b, depth, n);
      }
    }
  }

  lemma {:induction false} ConstantAlike<N>(a: Input<N>, b: Input<N>, depth: nat, n: nat)
    requires Alike(a, b, n) && Used(a, ParseBase(a, depth).input) < n && depth < MAX_DEPTH
    requires a.Current().FunctionName? && a.Current().params == 0
    ensures ParseBase(b, depth).tree == ParseBase(a, depth).tree
    ensures SameRead(a, ParseBase(a, depth).input, b, ParseBase(b, depth).input, n)
  {
    AlikeNext(a, b, n);
    AlikeNext(a.Next(), b.Next(), n - 1);
    if a.Next().Current().Open? {
      AlikeNext(a.Next().Next(), b.Next().Next(), n - 2);
    }
  }

  lemma {:induction false} ListAlike<N>(a: Input<N>, b: Input<N>, depth: nat, n: nat)
    requires Alike(a, b, n) && Used(a, ParseBase(a, depth).input) < n && depth < MAX_DEPTH
    requires a.Current().FunctionName? && a.Current().params > 1 && a.Next().Current().Open? && b.Next().Current().Open?
    ensures ParseBase(b, depth).tree == ParseBase(a, depth).tree
    ensures SameRead(a, ParseBase(a, depth).input, b, ParseBase(b, depth).input, n)
    decreases |a.rest|, 0, 0, 0
  {
    AlikeNext(a, b, n);
    var t, more, more' := a.Current(), a.Next(), b.Next();
    ArgsAlike(Named(t.name, t.params), t.pure, [], more, more', depth + 1, n - 1);
    ReadOn(a, more, ParseBase(a, depth).input, b, more', ParseBase(b, depth).input, n);
  }

  /** The loop over the parameters behind one of them. */
  function AfterArg<N>(fn: Fn, pure: bool, done: seq<Expr<N>>, arg: Parsed<N>, depth: nat): Parsed<N>
    requires |done| < fn.Arity()
  {
    if arg.tree.Null? then arg
    else
      var done' := done + [arg.tree];
      if arg.input.Current().Sep? && |done'| < fn.Arity() then ParseArgs(fn, pure, done', arg.input, depth)
      else
        var node := Expr.Function(fn, pure, done' + seq(fn.Arity() - |done'|, _ => Null));
        if arg.input.Current().Close? && |done'| == fn.Arity() then Parsed(node, arg.input.Next())
        else Parsed(node, arg.input.Fail())
  }

  lemma ArgsStep<N>(fn: Fn, pure: bool, done: seq<Expr<N>>, input: Input<N>, depth: nat)
    requires |done| < fn.Arity() && input.rest != []
    ensures ParseArgs(fn, pure, done, input, depth)
      == AfterArg(fn, pure, done, ParseLevel(1, input.Next(), depth), depth)
  {
  }

  lemma {:induction false} AfterArgAlike<N>(
    fn: Fn, pure: bool, done: seq<Expr<N>>, a: Parsed<N>, b: Parsed<N>, depth: nat, n: nat
  )
    requires |done| < fn.Arity() && a.tree == b.tree && Alike(a.input, b.input, n)
    requires Used(a.input, AfterArg(fn, pure, done, a, depth).input) < n
    requires a.tree.Null? ==> a.input.failed
    ensures AfterArg(fn, pure, done, b, depth).tree == AfterArg(fn, pure, done, a, depth).tree
    ensures SameRead(a.input, AfterArg(fn, pure, done, a, depth).input,
      b.input, AfterArg(fn, pure, done, b, depth).input, n)
    decreases |a.input.rest|, 11
  {
    if n > 0 && !a.tree.Null? {
      AlikeNext(a.input, b.input, n);
      if a.input.Current().Sep? && |done| + 1 < fn.Arity() {
        ArgsAlike(fn, pure, done + [a.tree], a.input, b.input, depth, n);
      }
    }
  }

  lemma {:induction false} ArgsAlike<N>(
    fn: Fn, pure: bool, done: seq<Expr<N>>, a: Input<N>, b: Input<N>, depth: nat, n: nat
  )
    requires |done| < fn.Arity() && a.rest != [] && b.rest != []
    requires Alike(a, b, n) && Used(a, ParseArgs(fn, pure, done, a, depth).input) < n
    ensures ParseArgs(fn, pure, done, b, depth).tree == ParseArgs(fn, pure, done, a, depth).tree
    ensures SameRead(a, ParseArgs(fn, pure, done, a, depth).input, b, ParseArgs(fn, pure, done, b, depth).input, n)
    decreases |a.rest|, 10
  {
    ArgsStep(fn, pure, done, a, depth);
    ArgsStep(fn, pure, done, b, depth);
    AlikeNext(a, b, n);
    LevelAlike(1, a.Next(), b.Next(), depth, n - 1);
    var arg, arg' := ParseLevel(1, a.Next(), depth), ParseLevel(1, b.Next(), depth);
    ReadOn(a, a.Next(), arg.input, b, b.Next(), arg'.input, n);
    AfterArgAlike(fn, pure, done, arg, arg', depth, n - Used(a, arg.input));
    ReadOn(a, arg.input, AfterArg(fn, pure, done, arg, depth).input,
      b, arg'.input, AfterArg(fn, pure, done, arg', depth).input, n);
  }

  lemma {:induction false} PowerAlike<N>(a: Input<N>, b: Input<N>, depth: nat, n: nat)
    requires Alike(a, b, n) && Used(a, ParsePower(a, depth).input) < n
    ensures ParsePower(b, depth).prefix == ParsePower(a, depth).prefix
    ensures ParsePower(b, depth).base == ParsePower(a, depth).base
    ensures SameRead(a, ParsePower(a, depth).input, b, ParsePower(b, depth).input, n)
    decreases |a.rest|, 1
  {
    SignsAlike(false, a, b, n);
    var signs, signs' := Signs(false, a).1, Signs(false, b).1;
    NotRunAlike(NoNot, signs, signs', n - Used(a, signs));
    var nots := NotRun(NoNot, signs).1;
    BaseAlike(nots, NotRun(NoNot, signs').1, depth, n - Used(a, nots));
  }

  lemma {:induction false} FactorAlike<N>(a: Input<N>, b: Input<N>, depth: nat, n: nat)
    requires Alike(a, b, n) && Used(a, ParseFactor(a, depth).input) < n
    ensures ParseFactor(b, depth).tree == ParseFactor(a, depth).tree
    ensures SameRead(a, ParseFactor(a, depth).input, b, ParseFactor(b, depth).input, n)
    decreases |a.rest|, 2
  {
    PowerAlike(a, b, depth, n);
    var p, p' := ParsePower(a, depth), ParsePower(b, depth);
    if !p.base.Null? {
      AlikeNext(p.input, p'.input, n - Used(a, p.input));
      if Continues(FACTOR, p.input.Current()) {
        var more, more' := p.input.Next(), p'.input.Next();
        ReadOn(a, p.input, more, b, p'.input, more', n);
        FactorAlike(more, more', depth, n - Used(a, more));
        ReadOn(a, more, ParseFactor(more, depth).input, b, more', ParseFactor(more', depth).input, n);
      }
    }
  }

  lemma {:induction false} LevelAlike<N>(k: nat, a: Input<N>, b: Input<N>, depth: nat, n: nat)
    requires k <= LEVELS && Alike(a, b, n) && Used(a, ParseLevel(k, a, depth).input) < n
    ensures ParseLevel(k, b, depth).tree == ParseLevel(k, a, depth).tree
    ensures SameRead(a, ParseLevel(k, a, depth).input, b, ParseLevel(k, b, depth).input, n)
    decreases |a.rest|, 20 - k
  {
    if k == LEVELS {
      FactorAlike(a, b, depth, n);
    } else {
      LevelAlike(k + 1, a, b, depth, n);
      var first, first' := ParseLevel(k + 1, a, depth), ParseLevel(k + 1, b, depth);
      if !first.tree.Null? {
        ChainAlike(k, first.tree, first.input, first'.input, depth, n - Used(a, first.input));
      }
    }
  }

  /** A chain behind one of its operands. */
  function AfterOperand<N>(k: nat, left: Expr<N>, op: Fn, right: Parsed<N>, depth: nat): (r: Parsed<N>)
    requires k < LEVELS
    ensures |r.input.rest| <= |right.input.rest|
  {
    if right.tree.Null? then right else ParseChain(k, Binary(op, left, right.tree), right.input, depth)
  }

  lemma ChainGoesOn<N>(k: nat, left: Expr<N>, input: Input<N>, depth: nat)
    requires k < LEVELS && !left.Null? && Continues(k, input.Current())
    ensures ParseChain(k, left, input, depth)
      == AfterOperand(k, left, OperatorOf(k, input.Current()), ParseLevel(k + 1, input.Next(), depth), depth)
  {
    ChainStep(k, left, input, depth);
  }

  lemma {:induction false} ChainAlike<N>(k: nat, left: Expr<N>, a: Input<N>, b: Input<N>, depth: nat, n: nat)
    requires k < LEVELS && !left.Null? && Alike(a, b, n) && Used(a, ParseChain(k, left, a, depth).input) < n
    ensures ParseChain(k, left, b, depth).tree == ParseChain(k, left, a, depth).tree
    ensures SameRead(a, ParseChain(k, left, a, depth).input, b, ParseChain(k, left, b, depth).input, n)
    decreases |a.rest|, 10
  {
    AlikeNext(a, b, n);
    if Continues(k, a.Current()) {
      var op := OperatorOf(k, a.Current());
      ChainGoesOn(k, left, a, depth);
      ChainGoesOn(k, left, b, depth);
      OperandAlike(k, left, op, a, b, depth, n);
    }
  }

  lemma {:induction false} AfterOperandAlike<N>(
    k: nat, left: Expr<N>, op: Fn, a: Parsed<N>, b: Parsed<N>, depth: nat, n: nat
  )
    requires k < LEVELS && a.tree == b.tree && Alike(a.input, b.input, n)
    requires Used(a.input, AfterOperand(k, left, op, a, depth).input) < n
    ensures AfterOperand(k, left, op, b, depth).tree == AfterOperand(k, left, op, a, depth).tree
    ensures SameRead(a.input, AfterOperand(k, left, op, a, depth).input,
      b.input, AfterOperand(k, left, op, b, depth).input, n)
    decreases |a.input.rest|, 11
  {
    if !a.tree.Null? {
      ChainAlike(k, Binary(op, left, a.tree), a.input, b.input, depth, n);
    }
  }

  lemma {:induction false} OperandAlike<N>(k: nat, left: Expr<N>, op: Fn, a: Input<N>, b: Input<N>, depth: nat, n: nat)
    requires k < LEVELS && n > 0 && Alike(a, b, n) && Alike(a.Next(), b.Next(), n - 1)
    requires a.rest != [] && b.rest != []
    requires Used(a, AfterOperand(k, left, op, ParseLevel(k + 1, a.Next(), depth), depth).input) < n
    ensures
      var r := AfterOperand(k, left, op, ParseLevel(k + 1, a.Next(), depth), depth);
      var r' := AfterOperand(k, left, op, ParseLevel(k + 1, b.Next(), depth), depth);
      r'.tree == r.tree && SameRead(a, r.input, b, r'.input, n)
    decreases |a.rest|, 9
  {
    var right, right' := ParseLevel(k + 1, a.Next(), depth), ParseLevel(k + 1, b.Next(), depth);
    LevelAlike(k + 1, a.Next(), b.Next(), depth, n - 1);
    ReadOn(a, a.Next(), right.input, b, b.Next(), right'.input, n);
    AfterOperandAlike(k, left, op, right, right', depth, n - Used(a, right.input));
    ReadOn(a, right.input, AfterOperand(k, left, op, right, depth).input,
      b, right'.input, AfterOperand(k, left, op, right', depth).input, n);
  }

  // ----- The error position -----

  lemma {:induction false} ReadBegins<N(!new)>(ar: Arith<N>, tokens: seq<Token<N>>)
    requires Compile(ar, tokens).SyntaxError?
    ensures BeginsExpression(tokens[..Compile(ar, tokens).at])
  {
    var input := Input(tokens, false);
    var r := ParseLevel(0, input, 0);
    if r.input.failed {
      var e, read, missing := LevelIsBegun(ar.nan, 0, input, 0);
      assert tokens[..Compile(ar, tokens).at] == read <= Print(e, 0);
    } else {
      var e := LevelIsRead(0, input, 0);
      assert tokens[..Compile(ar, tokens).at] == Body(e) <= Print(e, 0);
    }
  }

  lemma {:induction false} NextDoesNotBegin<N(!new)>(ar: Arith<N>, tokens: seq<Token<N>>, e: Ast<N>)
    requires Compile(ar, tokens).SyntaxError? && Compile(ar, tokens).at < |tokens| && e.WellFormed()
    requires forall i :: 0 <= i < |tokens| ==> !tokens[i].End?
    ensures !(tokens[..Compile(ar, tokens).at + 1] <= Print(e, 0))
  {
    var at := Compile(ar, tokens).at;
    if tokens[..at + 1] <= Print(e, 0) {
      var a, b := Input(tokens, false), Input(Print(e, 0), false);
      assert b.rest[..at + 1] == tokens[..at + 1];
      PrefixIsSame(a.rest, b.rest, at + 1);
      LevelAlike(0, a, b, 0, at + 1);
      AlikeNext(ParseLevel(0, a, 0).input, ParseLevel(0, b, 0).input, 1);
      CompileInvertsPrinting(ar, e);
      assert false;
    }
  }

  /** Where te_compile reports a syntax error, what is in front of the token at which the
      parser has stopped begins some expression, and with that token it begins none.
      Without such a token the text is a beginning that is not complete. */
  lemma {:induction false} ErrorIsAtFirstImpossibleToken<N(!new)>(ar: Arith<N>, tokens: seq<Token<N>>)
    requires Compile(ar, tokens).SyntaxError? && forall i :: 0 <= i < |tokens| ==> !tokens[i].End?
    ensures
      var at := Compile(ar, tokens).at;
      && BeginsExpression(tokens[..at])
      && (if at < |tokens| then !BeginsExpression(tokens[..at + 1])
          else forall e: Ast<N> :: e.WellFormed() ==> Print(e, 0) != tokens)
  {
    var at := Compile(ar, tokens).at;
    ReadBegins(ar, tokens);
    forall e: Ast<N> | e.WellFormed() ensures Print(e, 0) != tokens {
      CompileInvertsPrinting(ar, e);
    }
    if at < |tokens| {
      forall e: Ast<N> | e.WellFormed() ensures !(tokens[..at + 1] <= Print(e, 0)) {
        NextDoesNotBegin(ar, tokens, e);
      }
    }
  }
}
