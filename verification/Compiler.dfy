/** What a compiled expression means: unary runs collapse to one node, and the
    compiled tree of a printed expression has the value the author wrote down. */
module Compiler {
  import opened TinyExpr
  import opened Grammar
  import opened Printing

  // ----- Laws of the unary operators -----

  function Neg<N>(ar: Arith<N>, x: N): N { ar.apply(Negate, [x]) }

  function Truth<N>(ar: Arith<N>, b: bool): N { if b then ar.yes else ar.no }

  /** The unary functions as tinyexpr.c defines them.  The negated ones negate the
      C integer 0 or 1, so a negated false is 0.0 and not Neg(0.0). */
  ghost predicate UnaryLaws<N(!new)>(ar: Arith<N>) {
    && ar.isZero(ar.no) && !ar.isZero(ar.yes)
    && (forall x :: Neg(ar, Neg(ar, x)) == x)
    && (forall x :: ar.isZero(Neg(ar, x)) == ar.isZero(x))
    && (forall x :: ar.apply(LogicalNot, [x]) == Truth(ar, ar.isZero(x)))
    && (forall x :: ar.apply(LogicalNotNot, [x]) == Truth(ar, !ar.isZero(x)))
    && (forall x :: ar.apply(NegateLogicalNot, [x]) == if ar.isZero(x) then Neg(ar, ar.yes) else ar.no)
    && (forall x :: ar.apply(NegateLogicalNotNot, [x]) == if ar.isZero(x) then ar.no else Neg(ar, ar.yes))
  }

  /** There is no negative zero: negating a false result gives it back. */
  predicate SignlessZero<N(==)>(ar: Arith<N>) {
    Neg(ar, ar.no) == ar.no
  }

  // ----- Collapsing a run of unary operators -----

  function PrefixValue<N>(ar: Arith<N>, prefix: Prefix, x: N): N {
    match prefix
    case NoPrefix => x
    case Prefix(fn) => ar.apply(fn, [x])
  }

  /** The operators applied one by one, the last one first. */
  function OneByOne<N>(ar: Arith<N>, ops: seq<UnaryOp>, x: N): N {
    if ops == [] then x else UnaryValue(ar, ops[0], OneByOne(ar, ops[1..], x))
  }

  function Collapse(run: Run, ops: seq<UnaryOp>): Run
    decreases |ops|
  {
    if ops == [] then run else Collapse(run.Then(ops[0]), ops[1..])
  }

  /** A `!` is reached with an odd number of `-` in front of it. */
  predicate NegatesNot(run: Run, ops: seq<UnaryOp>)
    decreases |ops|
  {
    ops != [] && ((run == Run(true, NoNot) && ops[0] == Not) || NegatesNot(run.Then(ops[0]), ops[1..]))
  }

  lemma ThenIsApplication<N(!new)>(ar: Arith<N>, run: Run, op: UnaryOp, x: N)
    requires UnaryLaws(ar)
    requires SignlessZero(ar) || !(run == Run(true, NoNot) && op == Not)
    ensures PrefixValue(ar, run.Then(op).Prefix(), x) == PrefixValue(ar, run.Prefix(), UnaryValue(ar, op, x))
  {
    assert ar.apply(Negate, [x]) == Neg(ar, x);
    assert ar.isZero(Neg(ar, x)) == ar.isZero(x);
    var y := UnaryValue(ar, op, x);
    assert ar.apply(LogicalNot, [x]) == Truth(ar, ar.isZero(x));
    assert ar.apply(LogicalNot, [y]) == Truth(ar, ar.isZero(y));
    assert ar.apply(LogicalNotNot, [y]) == Truth(ar, !ar.isZero(y));
    assert Neg(ar, y) == ar.apply(Negate, [y]);
  }

  lemma {:induction false} CollapseIsApplication<N(!new)>(ar: Arith<N>, run: Run, ops: seq<UnaryOp>, x: N)
    requires UnaryLaws(ar)
    requires SignlessZero(ar) || !NegatesNot(run, ops)
    ensures PrefixValue(ar, Collapse(run, ops).Prefix(), x) == PrefixValue(ar, run.Prefix(), OneByOne(ar, ops, x))
    decreases |ops|
  {
    if ops != [] {
      CollapseIsApplication(ar, run.Then(ops[0]), ops[1..], x);
      ThenIsApplication(ar, run, ops[0], OneByOne(ar, ops[1..], x));
    }
  }

  ghost predicate CollapseAgrees<N>(ar: Arith<N>, ops: seq<UnaryOp>, x: N) {
    PrefixValue(ar, Collapse(START, ops).Prefix(), x) == OneByOne(ar, ops, x)
  }

  lemma {:induction false} AfterNotSignsAreDropped(run: Run, ops: seq<UnaryOp>)
    requires run.nots != NoNot
    ensures !NegatesNot(run, ops)
    decreases |ops|
  {
    if ops != [] {
      AfterNotSignsAreDropped(run.Then(ops[0]), ops[1..]);
    }
  }

  /** One of true and false makes a run of operators give a non-zero result. */
  lemma {:induction false} SomeTruth<N(!new)>(ar: Arith<N>, ops: seq<UnaryOp>)
    requires UnaryLaws(ar)
    ensures ar.isZero(OneByOne(ar, ops, ar.yes)) != ar.isZero(OneByOne(ar, ops, ar.no))
    decreases |ops|
  {
    if ops != [] {
      SomeTruth(ar, ops[1..]);
      var y, n := OneByOne(ar, ops[1..], ar.yes), OneByOne(ar, ops[1..], ar.no);
      assert Neg(ar, y) == ar.apply(Negate, [y]) && Neg(ar, n) == ar.apply(Negate, [n]);
    }
  }

  /** With a negative zero, a run that negates a `!` collapses to something else. */
  lemma {:induction false} NegatedNotDiffers<N(!new)>(ar: Arith<N>, run: Run, ops: seq<UnaryOp>) returns (x: N)
    requires UnaryLaws(ar) && !SignlessZero(ar)
    requires run.nots == NoNot && NegatesNot(run, ops)
    ensures PrefixValue(ar, Collapse(run, ops).Prefix(), x) != PrefixValue(ar, run.Prefix(), OneByOne(ar, ops, x))
    decreases |ops|
  {
    if ops[0] == Not {
      var tail := ops[1..];
      var after := run.Then(Not);
      AfterNotSignsAreDropped(after, tail);
      SomeTruth(ar, tail);
      x := if ar.isZero(OneByOne(ar, tail, ar.yes)) then ar.no else ar.yes;
      CollapseIsApplication(ar, after, tail, x);
      var y := OneByOne(ar, tail, x);
      assert PrefixValue(ar, Run(true, OddNots).Prefix(), y) == ar.no;
      assert PrefixValue(ar, Run(true, NoNot).Prefix(), UnaryValue(ar, Not, y)) == Neg(ar, ar.no);
    } else {
      x := NegatedNotDiffers(ar, run.Then(ops[0]), ops[1..]);
      ThenIsApplication(ar, run, ops[0], OneByOne(ar, ops[1..], x));
    }
  }

  /** Collapsing a run of `-`, `+` and `!` to at most one node equals applying the
      operators one by one, exactly unless numbers have a negative zero and the run
      negates a `!`: `- !` of a true value is then 0.0 collapsed and -0.0 one by one. */
  lemma CollapseIsExactIff<N(!new)>(ar: Arith<N>, ops: seq<UnaryOp>)
    requires UnaryLaws(ar)
    ensures (forall x :: CollapseAgrees(ar, ops, x)) <==> SignlessZero(ar) || !NegatesNot(START, ops)
  {
    if SignlessZero(ar) || !NegatesNot(START, ops) {
      forall x ensures CollapseAgrees(ar, ops, x) {
        CollapseIsApplication(ar, START, ops, x);
      }
    } else {
      var x := NegatedNotDiffers(ar, START, ops);
      assert !CollapseAgrees(ar, ops, x);
    }
  }

  // ----- The value of the parsed tree -----

  /** No unary run of the expression puts a `-` in front of a `!`. */
  predicate NoNegatedNot<N>(run: Run, e: Ast<N>)
    decreases e
  {
    match e
    case Call(_, _, args) => forall i :: 0 <= i < |args| ==> NoNegatedNot(START, args[i])
    case Unary(op, a) => !(run == Run(true, NoNot) && op == Not) && NoNegatedNot(run.Then(op), a)
    case Operation(_, l, r) => NoNegatedNot(START, l) && NoNegatedNot(START, r)
    case Paren(a) => NoNegatedNot(START, a)
    case _ => true
  }

  lemma EvalApply<N>(ar: Arith<N>, slots: seq<N>, prefix: Prefix, t: Expr<N>)
    ensures Eval(ar, slots, Apply(prefix, t)) == PrefixValue(ar, prefix, Eval(ar, slots, t))
  {
    if prefix.Prefix? {
      var args := [t];
      assert seq(|args|, i requires 0 <= i < |args| => Eval(ar, slots, args[i])) == [Eval(ar, slots, t)];
    }
  }

  lemma EvalBinary<N>(ar: Arith<N>, slots: seq<N>, fn: Fn, l: Expr<N>, r: Expr<N>)
    ensures Eval(ar, slots, Binary(fn, l, r)) == ar.apply(fn, [Eval(ar, slots, l), Eval(ar, slots, r)])
  {
    var args := [l, r];
    assert seq(|args|, i requires 0 <= i < |args| => Eval(ar, slots, args[i]))
        == [Eval(ar, slots, l), Eval(ar, slots, r)];
  }

  /** The value of an expression whose unary runs are each applied as the one function
      that `power` chooses for them; the operators of `run` are already read. */
  function CollapsedMeaning<N>(ar: Arith<N>, slots: seq<N>, run: Run, e: Ast<N>): N
    decreases e
  {
    match e
    case Num(v) => PrefixValue(ar, run.Prefix(), v)
    case Name(s) => PrefixValue(ar, run.Prefix(), if s < |slots| then slots[s] else ar.nan)
    case Call(name, _, args) =>
      PrefixValue(ar, run.Prefix(), ar.apply(Named(name, |args|),
        seq(|args|, i requires 0 <= i < |args| => CollapsedMeaning(ar, slots, START, args[i]))))
    case Unary(op, a) => CollapsedMeaning(ar, slots, run.Then(op), a)
    case Operation(fn, l, r) =>
      PrefixValue(ar, run.Prefix(), ar.apply(fn,
        [CollapsedMeaning(ar, slots, START, l), CollapsedMeaning(ar, slots, START, r)]))
    case Paren(a) => PrefixValue(ar, run.Prefix(), CollapsedMeaning(ar, slots, START, a))
    case EmptyCall(name, _) => PrefixValue(ar, run.Prefix(), ar.apply(Named(name, 0), []))
  }

  /** The tree has that value, whatever the number operations are. */
  lemma {:induction false} TreeCollapses<N>(ar: Arith<N>, slots: seq<N>, run: Run, e: Ast<N>)
    ensures Eval(ar, slots, TreeAfter(run, e)) == CollapsedMeaning(ar, slots, run, e)
    decreases e
  {
    match e
    case Num(v) => EvalApply(ar, slots, run.Prefix(), Constant(v));
    case Name(s) => EvalApply(ar, slots, run.Prefix(), Variable(s));
    case Call(name, pure, args) =>
      var trees := seq(|args|, i requires 0 <= i < |args| => TreeAfter(START, args[i]));
      forall i | 0 <= i < |args| ensures Eval(ar, slots, trees[i]) == CollapsedMeaning(ar, slots, START, args[i]) {
        TreeCollapses(ar, slots, START, args[i]);
      }
      assert seq(|trees|, i requires 0 <= i < |trees| => Eval(ar, slots, trees[i]))
          == seq(|args|, i requires 0 <= i < |args| => CollapsedMeaning(ar, slots, START, args[i]));
      EvalApply(ar, slots, run.Prefix(), Expr.Function(Named(name, |args|), pure, trees));
    case Unary(op, a) => TreeCollapses(ar, slots, run.Then(op), a);
    case Operation(fn, l, r) =>
      TreeCollapses(ar, slots, START, l);
      TreeCollapses(ar, slots, START, r);
      EvalBinary(ar, slots, fn, TreeAfter(START, l), TreeAfter(START, r));
      EvalApply(ar, slots, run.Prefix(), Binary(fn, TreeAfter(START, l), TreeAfter(START, r)));
    case Paren(a) =>
      TreeCollapses(ar, slots, START, a);
      EvalApply(ar, slots, run.Prefix(), TreeAfter(START, a));
    case EmptyCall(name, pure) =>
      var t: Expr<N> := Expr.Function(Named(name, 0), pure, []);
      assert seq(|t.args|, i requires 0 <= i < |t.args| => Eval(ar, slots, t.args[i])) == [];
      EvalApply(ar, slots, run.Prefix(), t);
  }

  /** Where collapsing is exact, the value is that of the operators one by one. */
  lemma {:induction false} CollapsedMeaningIsMeaning<N(!new)>(ar: Arith<N>, slots: seq<N>, run: Run, e: Ast<N>)
    requires UnaryLaws(ar)
    requires SignlessZero(ar) || NoNegatedNot(run, e)
    ensures CollapsedMeaning(ar, slots, run, e) == PrefixValue(ar, run.Prefix(), Meaning(ar, slots, e))
    decreases e
  {
    match e
    case Call(name, pure, args) =>
      forall i | 0 <= i < |args| ensures CollapsedMeaning(ar, slots, START, args[i]) == Meaning(ar, slots, args[i]) {
        CollapsedMeaningIsMeaning(ar, slots, START, args[i]);
      }
      assert seq(|args|, i requires 0 <= i < |args| => CollapsedMeaning(ar, slots, START, args[i]))
          == seq(|args|, i requires 0 <= i < |args| => Meaning(ar, slots, args[i]));
    case Unary(op, a) =>
      CollapsedMeaningIsMeaning(ar, slots, run.Then(op), a);
      ThenIsApplication(ar, run, op, Meaning(ar, slots, a));
    case Operation(fn, l, r) =>
      CollapsedMeaningIsMeaning(ar, slots, START, l);
      CollapsedMeaningIsMeaning(ar, slots, START, r);
    case Paren(a) => CollapsedMeaningIsMeaning(ar, slots, START, a);
    case _ =>
  }

  /** The value of the parsed tree, and when it is that of the expression as written. */
  lemma TreeMeans<N(!new)>(ar: Arith<N>, slots: seq<N>, e: Ast<N>)
    ensures Eval(ar, slots, Tree(e)) == CollapsedMeaning(ar, slots, START, e)
    ensures UnaryLaws(ar) && (SignlessZero(ar) || NoNegatedNot(START, e)) ==>
              Eval(ar, slots, Tree(e)) == Meaning(ar, slots, e)
  {
    TreeCollapses(ar, slots, START, e);
    if UnaryLaws(ar) && (SignlessZero(ar) || NoNegatedNot(START, e)) {
      CollapsedMeaningIsMeaning(ar, slots, START, e);
    }
  }

  /** Compiling a printed expression succeeds exactly when it nests at most
      TE_MAX_DEPTH deep (otherwise te_compile reports -1).  The compiled tree then has
      in every memory the value of the expression with each unary run applied as one
      function, which is its value as written wherever collapsing is exact. */
  lemma {:induction false} CompileInvertsPrinting<N(!new)>(ar: Arith<N>, e: Ast<N>)
    requires e.WellFormed()
    ensures Compile(ar, Print(e, 0)) == if Nesting(e, 0) <= MAX_DEPTH then Ok(Fold(ar, Tree(e))) else OutOfDepth
    ensures Nesting(e, 0) <= MAX_DEPTH ==> forall slots ::
              Eval(ar, slots, Compile(ar, Print(e, 0)).tree) == CollapsedMeaning(ar, slots, START, e)
    ensures Nesting(e, 0) <= MAX_DEPTH && UnaryLaws(ar) && (SignlessZero(ar) || NoNegatedNot(START, e)) ==>
              forall slots :: Eval(ar, slots, Compile(ar, Print(e, 0)).tree) == Meaning(ar, slots, e)
  {
    assert Print(e, 0) + [] == Print(e, 0);
    ReadsLevel(0, e, [], 0);
    if Fits(e, 0, 0) {
      forall slots
        ensures Eval(ar, slots, Fold(ar, Tree(e))) == Eval(ar, slots, Tree(e)) == CollapsedMeaning(ar, slots, START, e)
      {
        AgreesWithItself(ar, Tree(e));
        FoldPreservesMeaning(ar, ar, slots, Tree(e));
        TreeMeans(ar, slots, e);
      }
      if UnaryLaws(ar) && (SignlessZero(ar) || NoNegatedNot(START, e)) {
        forall slots ensures Eval(ar, slots, Tree(e)) == Meaning(ar, slots, e) {
          TreeMeans(ar, slots, e);
        }
      }
    }
  }
}
