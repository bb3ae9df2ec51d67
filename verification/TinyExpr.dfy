/** The compiled expression tree of tinyexpr, its evaluation and constant folding.

    Numbers are a type parameter: the only thing assumed about them is what a
    lemma states, so every result holds for IEEE doubles as well as for reals. */
module TinyExpr {

  /** The function stored in a node: an operator of the grammar or a named function. */
  datatype Fn =
    | Comma
    | LogicalOr | LogicalAnd
    | Equal | NotEqual
    | Greater | GreaterEq | Lower | LowerEq
    | Add | Sub
    | Mul | Divide | Fmod
    | Pow
    | Negate | LogicalNot | LogicalNotNot | NegateLogicalNot | NegateLogicalNotNot
    | Named(name: string, params: nat)
  {
    function Arity(): nat {
      match this
      case Named(_, n) => n
      case Negate | LogicalNot | LogicalNotNot | NegateLogicalNot | NegateLogicalNotNot => 1
      case _ => 2
    }
  }

  /** The number operations: what each function computes, NaN, the comparison
      with 0.0 and the two results of a logical operator. */
  datatype Arith<!N> = Arith(apply: (Fn, seq<N>) -> N, nan: N, isZero: N -> bool, yes: N, no: N)

  /** A compiled tree.  `Null` is a missing parameter, `Placeholder` the node a
      syntax error leaves behind; neither is part of an accepted expression. */
  datatype Expr<N> =
    | Null
    | Placeholder
    | Constant(value: N)
    | Variable(slot: nat)
    | Function(fn: Fn, pure: bool, args: seq<Expr<N>>)
  {
    /** Every function node has exactly as many arguments as its function takes. */
    ghost predicate WellFormed() {
      match this
      case Null | Placeholder => false
      case Constant(_) | Variable(_) => true
      case Function(fn, _, args) =>
        |args| == fn.Arity() && forall i :: 0 <= i < |args| ==> args[i].WellFormed()
    }
  }

  /** The value of a tree; `slots` is the memory the variables are bound to. */
  function Eval<N>(ar: Arith<N>, slots: seq<N>, e: Expr<N>): N {
    match e
    case Null | Placeholder => ar.nan
    case Constant(v) => v
    case Variable(s) => if s < |slots| then slots[s] else ar.nan
    case Function(fn, _, args) =>
      ar.apply(fn, seq(|args|, i requires 0 <= i < |args| => Eval(ar, slots, args[i])))
  }

  /** The slots a tree reads. */
  function Vars<N>(e: Expr<N>): set<nat> {
    match e
    case Variable(s) => {s}
    case Function(_, _, args) => set i, s | 0 <= i < |args| && s in Vars(args[i]) :: s
    case _ => {}
  }

  /** Evaluation looks at nothing but the slots of `Vars`. */
  lemma {:induction false} EvalReadsOnlyVars<N>(ar: Arith<N>, m1: seq<N>, m2: seq<N>, e: Expr<N>)
    requires |m1| == |m2|
    requires forall s :: s in Vars(e) && s < |m1| ==> m1[s] == m2[s]
    ensures Eval(ar, m1, e) == Eval(ar, m2, e)
  {
    match e
    case Function(fn, _, args) =>
      forall i | 0 <= i < |args| ensures Eval(ar, m1, args[i]) == Eval(ar, m2, args[i]) {
        assert Vars(args[i]) <= Vars(e);
        EvalReadsOnlyVars(ar, m1, m2, args[i]);
      }
      assert seq(|args|, i requires 0 <= i < |args| => Eval(ar, m1, args[i]))
          == seq(|args|, i requires 0 <= i < |args| => Eval(ar, m2, args[i]));
    case _ =>
  }

  // ----- Every variable of the tree is read -----

  /** Number operations that pass a mark on: a function is marked if one of its
      parameters is. */
  ghost function Marking<N(!new)>(plain: N, mark: N): Arith<N> {
    Arith((fn, xs) => if mark in xs then mark else plain, plain, x => x == plain, mark, plain)
  }

  /** The mark is no constant of the tree. */
  ghost predicate NoConstant<N>(mark: N, e: Expr<N>) {
    match e
    case Constant(v) => v != mark
    case Function(_, _, args) => forall i :: 0 <= i < |args| ==> NoConstant(mark, args[i])
    case _ => true
  }

  ghost predicate ReadsMark<N>(slots: seq<N>, mark: N, e: Expr<N>) {
    exists s :: s in Vars(e) && s < |slots| && slots[s] == mark
  }

  /** The variables of a tree are those that are read, and no others: with operations
      that pass a mark on, its value is marked exactly if one of its variables is. */
  lemma {:induction false} VarsAreRead<N(!new)>(slots: seq<N>, plain: N, mark: N, e: Expr<N>)
    requires plain != mark && NoConstant(mark, e)
    ensures Eval(Marking(plain, mark), slots, e) == mark <==> ReadsMark(slots, mark, e)
  {
    match e
    case Function(fn, _, args) =>
      var values := seq(|args|, i requires 0 <= i < |args| => Eval(Marking(plain, mark), slots, args[i]));
      forall i | 0 <= i < |args| ensures values[i] == mark <==> ReadsMark(slots, mark, args[i]) {
        VarsAreRead(slots, plain, mark, args[i]);
      }
      if mark in values {
        var i :| 0 <= i < |args| && values[i] == mark;
        var s :| s in Vars(args[i]) && s < |slots| && slots[s] == mark;
        assert s in Vars(e);
      }
      if s :| s in Vars(e) && s < |slots| && slots[s] == mark {
        var i :| 0 <= i < |args| && s in Vars(args[i]);
        assert ReadsMark(slots, mark, args[i]) && values[i] == mark;
      }
    case Variable(s) => assert s in Vars(e);
    case _ =>
  }

  // ----- Constant folding -----

  /** What `optimize` turns a tree into.  Only functions flagged pure are
      folded, and the parameters of the others are not visited. */
  function Fold<N>(ar: Arith<N>, e: Expr<N>): Expr<N> {
    match e
    case Function(fn, pure, args) =>
      if !pure then e
      else
        var folded := seq(|args|, i requires 0 <= i < |args| => Fold(ar, args[i]));
        if forall i :: 0 <= i < |folded| ==> folded[i].Constant?
        then Constant(Eval(ar, [], Function(fn, pure, folded)))
        else Function(fn, pure, folded)
    case _ => e
  }

  lemma FoldFunction<N>(ar: Arith<N>, fn: Fn, args: seq<Expr<N>>, folded: seq<Expr<N>>)
    requires |folded| == |args| && forall i :: 0 <= i < |args| ==> folded[i] == Fold(ar, args[i])
    ensures Fold(ar, Function(fn, true, args)) ==
      if forall i :: 0 <= i < |folded| ==> folded[i].Constant?
      then Constant(Eval(ar, [], Function(fn, true, folded))) else Function(fn, true, folded)
  {
    assert folded == seq(|args|, i requires 0 <= i < |args| => Fold(ar, args[i]));
  }

  /** Two number systems agree on the functions a tree flags as pure.  A function
      without the flag may compute something else at every evaluation. */
  ghost predicate AgreeOnPure<N(!new)>(compile: Arith<N>, run: Arith<N>, e: Expr<N>) {
    match e
    case Function(fn, pure, args) =>
      (pure ==> forall xs :: compile.apply(fn, xs) == run.apply(fn, xs))
      && forall i :: 0 <= i < |args| ==> AgreeOnPure(compile, run, args[i])
    case _ => true
  }

  /** Folding at compile time changes the value of no tree in any memory at run
      time, and the dependency walk finds the same variables after it. */
  lemma {:induction false} FoldPreservesMeaning<N(!new)>(compile: Arith<N>, run: Arith<N>, slots: seq<N>, e: Expr<N>)
    requires AgreeOnPure(compile, run, e)
    ensures Eval(run, slots, Fold(compile, e)) == Eval(run, slots, e)
    ensures Vars(Fold(compile, e)) == Vars(e)
    ensures e.WellFormed() ==> Fold(compile, e).WellFormed()
  {
    match e
    case Function(fn, pure, args) =>
      if pure {
        var folded := seq(|args|, i requires 0 <= i < |args| => Fold(compile, args[i]));
        forall i | 0 <= i < |args|
          ensures Eval(run, slots, folded[i]) == Eval(run, slots, args[i])
          ensures Vars(folded[i]) == Vars(args[i])
          ensures args[i].WellFormed() ==> folded[i].WellFormed()
        {
          FoldPreservesMeaning(compile, run, slots, args[i]);
        }
        assert seq(|args|, i requires 0 <= i < |args| => Eval(run, slots, folded[i]))
            == seq(|args|, i requires 0 <= i < |args| => Eval(run, slots, args[i]));
        if forall i :: 0 <= i < |folded| ==> folded[i].Constant? {
          assert seq(|args|, i requires 0 <= i < |args| => Eval(compile, [], folded[i]))
              == seq(|args|, i requires 0 <= i < |args| => Eval(run, slots, folded[i]));
          assert Vars(e) == {};
        } else {
          assert Vars(Function(fn, pure, folded)) == Vars(e);
        }
      }
    case _ =>
  }

  /** After folding no pure function node has only constant parameters. */
  ghost predicate FullyFolded<N>(e: Expr<N>) {
    match e
    case Function(_, pure, args) =>
      pure ==>
        && (exists i :: 0 <= i < |args| && !args[i].Constant?)
        && (forall i :: 0 <= i < |args| ==> FullyFolded(args[i]))
    case _ => true
  }

  lemma {:induction false} FoldIsComplete<N>(ar: Arith<N>, e: Expr<N>)
    ensures FullyFolded(Fold(ar, e))
  {
    match e
    case Function(fn, pure, args) =>
      if pure {
        forall i | 0 <= i < |args| ensures FullyFolded(Fold(ar, args[i])) {
          FoldIsComplete(ar, args[i]);
        }
      }
    case _ =>
  }
}
