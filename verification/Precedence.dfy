/** How operators bind, told on the tokens: which operator of a chain is applied last,
    and what unary operators, parentheses and calls apply to. */
module Precedence {
  import opened TinyExpr
  import opened Grammar
  import opened Printing
  import opened Compiler

  /** The classes of binary operators, from those that bind least to those that bind most. */
  function Class(i: nat): set<Fn> {
    match i
    case 0 => {Comma}
    case 1 => {LogicalOr}
    case 2 => {LogicalAnd}
    case 3 => {Equal, NotEqual}
    case 4 => {Greater, GreaterEq, Lower, LowerEq}
    case 5 => {Add, Sub}
    case 6 => {Mul, Divide, Fmod}
    case 7 => {Pow}
    case _ => {}
  }

  predicate InClass(f: Fn, i: nat) {
    f in Class(i)
  }

  ghost predicate IsOperator(f: Fn) {
    exists i :: InClass(f, i)
  }

  /** `f` binds tighter than `g`. */
  ghost predicate Tighter(f: Fn, g: Fn) {
    exists i, j :: i < j && InClass(g, i) && InClass(f, j)
  }

  function Written<N>(f: Fn): Token<N> {
    if f == Comma then Sep else Infix(f)
  }

  /** An operand of a chain: unary operators in front of a number, a name, a call or
      parentheses. */
  datatype Item<N> = Item(signs: seq<UnaryOp>, primary: Ast<N>)

  ghost predicate IsItem<N>(item: Item<N>) {
    item.primary.WellFormed() && !item.primary.Unary? && !item.primary.Operation?
  }

  ghost predicate AreItems<N>(items: seq<Item<N>>) {
    forall i :: 0 <= i < |items| ==> IsItem(items[i])
  }

  ghost predicate AreOperators(ops: seq<Fn>) {
    forall i :: 0 <= i < |ops| ==> IsOperator(ops[i])
  }

  function SignText<N>(signs: seq<UnaryOp>): seq<Token<N>> {
    if signs == [] then [] else [UnaryToken(signs[0])] + SignText(signs[1..])
  }

  function ItemText<N>(item: Item<N>): seq<Token<N>> {
    SignText(item.signs) + Body(item.primary)
  }

  /** The chain: the operands with the operators between them. */
  function Text<N>(items: seq<Item<N>>, ops: seq<Fn>): seq<Token<N>>
    requires |items| == |ops| + 1
  {
    if ops == [] then ItemText(items[0])
    else ItemText(items[0]) + [Written(ops[0])] + Text(items[1..], ops[1..])
  }

  /** te_compile accepts the text, and the tree has the value `v`. */
  predicate HasValue<N(==)>(ar: Arith<N>, slots: seq<N>, tokens: seq<Token<N>>, v: N) {
    Compile(ar, tokens).Ok? && Eval(ar, slots, Compile(ar, tokens).tree) == v
  }

  /** No operand nests too deeply. */
  ghost predicate ItemsFit<N>(items: seq<Item<N>>) {
    forall i :: 0 <= i < |items| ==> BodyNesting(items[i].primary) <= MAX_DEPTH
  }

  // ----- Classes and levels -----

  lemma ClassIsLevel(f: Fn, i: nat)
    requires InClass(f, i)
    ensures LevelOf(f) == i
  {
  }

  lemma OperatorLevel(f: Fn)
    requires IsOperator(f)
    ensures LevelOf(f) <= FACTOR
  {
    var i :| InClass(f, i);
    ClassIsLevel(f, i);
  }

  lemma TighterIsHigher(f: Fn, g: Fn)
    requires IsOperator(f) && IsOperator(g)
    ensures Tighter(f, g) <==> LevelOf(f) > LevelOf(g)
  {
    var i :| InClass(f, i);
    var j :| InClass(g, j);
    ClassIsLevel(f, i);
    ClassIsLevel(g, j);
    if Tighter(f, g) {
      TighterHasHigherLevel(f, g);
    }
  }

  lemma TighterHasHigherLevel(f: Fn, g: Fn)
    requires Tighter(f, g)
    ensures LevelOf(f) > LevelOf(g)
  {
    var m, n :| m < n && InClass(g, m) && InClass(f, n);
    ClassIsLevel(g, m);
    ClassIsLevel(f, n);
  }

  // ----- The expression of a chain -----

  function Signed<N>(signs: seq<UnaryOp>, e: Ast<N>): Ast<N> {
    if signs == [] then e else Unary(signs[0], Signed(signs[1..], e))
  }

  lemma UnaryText<N>(op: UnaryOp, e: Ast<N>)
    requires e.WellFormed() && Level(e) >= FACTOR
    ensures Unary(op, e).WellFormed() && Level(Unary(op, e)) >= FACTOR
    ensures Body(Unary(op, e)) == [UnaryToken(op)] + Body(e) && BodyNesting(Unary(op, e)) == BodyNesting(e)
  {
  }

  lemma {:induction false} SignedText<N>(signs: seq<UnaryOp>, e: Ast<N>)
    requires e.WellFormed() && Level(e) >= FACTOR
    ensures Signed(signs, e).WellFormed() && Level(Signed(signs, e)) >= FACTOR
    ensures Body(Signed(signs, e)) == SignText(signs) + Body(e)
    ensures BodyNesting(Signed(signs, e)) == BodyNesting(e)
    decreases |signs|
  {
    if signs == [] {
      assert [] + Body(e) == Body(e);
    } else {
      SignedText(signs[1..], e);
      UnaryText(signs[0], Signed(signs[1..], e));
      Prepend(UnaryToken<N>(signs[0]), SignText(signs[1..]), Body(e));
    }
  }

  lemma Prepend<T>(t: T, a: seq<T>, b: seq<T>)
    ensures [t] + (a + b) == [t] + a + b
  {
  }

  lemma {:induction false} SignedValue<N>(ar: Arith<N>, slots: seq<N>, run: Run, signs: seq<UnaryOp>, e: Ast<N>)
    requires !e.Unary?
    ensures CollapsedMeaning(ar, slots, run, Signed(signs, e))
      == PrefixValue(ar, Collapse(run, signs).Prefix(), CollapsedMeaning(ar, slots, START, e))
    decreases |signs|
  {
    if signs != [] {
      SignedValue(ar, slots, run.Then(signs[0]), signs[1..], e);
    }
  }

  ghost predicate AllAtLeast(ops: seq<Fn>, m: nat) {
    forall i :: 0 <= i < |ops| ==> m <= LevelOf(ops[i]) <= FACTOR
  }

  /** `e` is printed as the chain, without parentheses where a rule of level `m` is
      expected. */
  ghost predicate Spells<N>(e: Ast<N>, items: seq<Item<N>>, ops: seq<Fn>, m: nat)
    requires |items| == |ops| + 1
  {
    && e.WellFormed() && Level(e) >= m && Body(e) == Text(items, ops)
    && (BodyNesting(e) <= MAX_DEPTH <==> ItemsFit(items))
  }

  /** A chain is two chains with an operator between them. */
  lemma {:induction false} TextSplits<N>(items: seq<Item<N>>, ops: seq<Fn>, k: nat)
    requires |items| == |ops| + 1 && k < |ops|
    ensures Text(items, ops) == Text(items[..k + 1], ops[..k]) + [Written(ops[k])] + Text(items[k + 1..], ops[k + 1..])
  {
    if k > 0 {
      TextSplits(items[1..], ops[1..], k - 1);
      assert items[1..][..k] == items[..k + 1][1..] && items[1..][k..] == items[k + 1..];
      assert ops[1..][..k - 1] == ops[..k][1..] && ops[1..][k..] == ops[k + 1..];
      Regrouped(ItemText(items[0]), [Written<N>(ops[0])], Text(items[..k + 1][1..], ops[..k][1..]),
        [Written<N>(ops[k])], Text(items[k + 1..], ops[k + 1..]));
    }
  }

  lemma Regrouped<T>(a: seq<T>, b: seq<T>, c: seq<T>, d: seq<T>, e: seq<T>)
    ensures a + b + (c + d + e) == a + b + c + d + e
  {
  }

  lemma {:induction false} FitSplits<N>(items: seq<Item<N>>, k: nat)
    requires k < |items|
    ensures items == items[..k] + items[k..]
    ensures ItemsFit(items) <==> ItemsFit(items[..k]) && ItemsFit(items[k..])
  {
  }

  lemma OperationText<N>(f: Fn, l: Ast<N>, r: Ast<N>)
    requires l.WellFormed() && r.WellFormed() && LevelOf(f) <= FACTOR
    requires Level(l) >= LeftLevel(f) && Level(r) >= RightLevel(f)
    ensures Operation(f, l, r).WellFormed() && Body(Operation(f, l, r)) == Body(l) + [Written(f)] + Body(r)
    ensures BodyNesting(Operation(f, l, r)) == Max(BodyNesting(l), BodyNesting(r))
  {
  }

  lemma {:induction false} OperationSpells<N>(
    items: seq<Item<N>>, ops: seq<Fn>, k: nat, l: Ast<N>, r: Ast<N>
  )
    requires |items| == |ops| + 1 && k < |ops| && LevelOf(ops[k]) < FACTOR
    requires Spells(l, items[..k + 1], ops[..k], LevelOf(ops[k]))
    requires Spells(r, items[k + 1..], ops[k + 1..], LevelOf(ops[k]) + 1)
    ensures Spells(Operation(ops[k], l, r), items, ops, LevelOf(ops[k]))
  {
    TextSplits(items, ops, k);
    OperationText(ops[k], l, r);
    FitSplits(items, k + 1);
  }

  lemma {:induction false} PowerSpells<N>(items: seq<Item<N>>, ops: seq<Fn>, r: Ast<N>)
    requires |items| == |ops| + 1 && ops != [] && ops[0] == Pow && IsItem(items[0])
    requires Spells(r, items[1..], ops[1..], FACTOR)
    ensures Spells(Signed(items[0].signs, Operation(Pow, items[0].primary, r)), items, ops, FACTOR)
  {
    var item, e := items[0], Operation(Pow, items[0].primary, r);
    OperationText(Pow, item.primary, r);
    SignedText(item.signs, e);
    SignsInFront(SignText<N>(item.signs), Body(item.primary), [Written<N>(Pow)], Body(r));
    FitSplits(items, 1);
  }

  lemma SignsInFront<T>(a: seq<T>, b: seq<T>, c: seq<T>, d: seq<T>)
    ensures a + (b + c + d) == a + b + c + d
  {
  }

  /** The last one of the operators that bind least. */
  lemma {:induction false} Loosest(ops: seq<Fn>) returns (k: nat)
    requires ops != []
    ensures k < |ops| && forall j :: 0 <= j < |ops| ==> LevelOf(ops[j]) >= LevelOf(ops[k]) + if j > k then 1 else 0
  {
    var n := |ops| - 1;
    k := n;
    if n > 0 {
      var before := Loosest(ops[..n]);
      k := if LevelOf(ops[n]) <= LevelOf(ops[before]) then n else before;
    }
  }

  /** Every chain is the printed form of some expression. */
  lemma {:induction false} Spelled<N>(items: seq<Item<N>>, ops: seq<Fn>, m: nat) returns (e: Ast<N>)
    requires |items| == |ops| + 1 && AreItems(items) && AllAtLeast(ops, m) && m <= FACTOR
    ensures Spells(e, items, ops, m)
    decreases |ops|
  {
    if ops == [] {
      e := Signed(items[0].signs, items[0].primary);
      SignedText(items[0].signs, items[0].primary);
    } else {
      var k := Loosest(ops);
      if LevelOf(ops[k]) == FACTOR {
        assert ops[0] == Pow by {
          assert LevelOf(ops[0]) == FACTOR;
        }
        var r := Spelled(items[1..], ops[1..], FACTOR);
        e := Signed(items[0].signs, Operation(Pow, items[0].primary, r));
        PowerSpells(items, ops, r);
      } else {
        var l := Spelled(items[..k + 1], ops[..k], LevelOf(ops[k]));
        var r := Spelled(items[k + 1..], ops[k + 1..], LevelOf(ops[k]) + 1);
        e := Operation(ops[k], l, r);
        OperationSpells(items, ops, k, l, r);
      }
    }
  }

  /** The compiled chain has the value of any expression printed like it. */
  lemma {:induction false} SpelledValue<N(!new)>(
    ar: Arith<N>, slots: seq<N>, e: Ast<N>, items: seq<Item<N>>, ops: seq<Fn>, m: nat
  )
    requires |items| == |ops| + 1 && Spells(e, items, ops, m)
    ensures Compile(ar, Text(items, ops)).Ok? <==> ItemsFit(items)
    ensures ItemsFit(items) ==> HasValue(ar, slots, Text(items, ops), CollapsedMeaning(ar, slots, START, e))
  {
    CompileInvertsPrinting(ar, e);
  }

  // ----- Chains -----

  /** A chain is accepted if none of its operands nests too deeply. */
  lemma {:induction false} ChainIsAccepted<N(!new)>(ar: Arith<N>, slots: seq<N>, items: seq<Item<N>>, ops: seq<Fn>)
    requires |items| == |ops| + 1 && AreItems(items) && AreOperators(ops)
    ensures Compile(ar, Text(items, ops)).Ok? <==> ItemsFit(items)
  {
    forall i | 0 <= i < |ops| ensures LevelOf(ops[i]) <= FACTOR {
      OperatorLevel(ops[i]);
    }
    var e := Spelled(items, ops, 0);
    SpelledValue(ar, slots, e, items, ops, 0);
  }

  /** Of all operators of a chain the last one of those that bind least is applied last,
      to the values of what is written on its two sides. */
  lemma {:induction false} LoosestIsAppliedLast<N(!new)>(
    ar: Arith<N>, slots: seq<N>, items: seq<Item<N>>, ops: seq<Fn>, k: nat, l: N, r: N
  )
    requires |items| == |ops| + 1 && AreItems(items) && AreOperators(ops) && k < |ops| && ops[k] != Pow
    requires forall j :: 0 <= j < k ==> !Tighter(ops[k], ops[j])
    requires forall j :: k < j < |ops| ==> Tighter(ops[j], ops[k])
    requires HasValue(ar, slots, Text(items[..k + 1], ops[..k]), l)
    requires HasValue(ar, slots, Text(items[k + 1..], ops[k + 1..]), r)
    ensures HasValue(ar, slots, Text(items, ops), ar.apply(ops[k], [l, r]))
  {
    var left, right, level := ops[..k], ops[k + 1..], LevelOf(ops[k]);
    OperatorLevel(ops[k]);
    forall j | 0 <= j < k ensures level <= LevelOf(left[j]) <= FACTOR {
      OperatorLevel(ops[j]);
      TighterIsHigher(ops[k], ops[j]);
    }
    forall j | 0 <= j < |right| ensures level + 1 <= LevelOf(right[j]) <= FACTOR {
      OperatorLevel(ops[k + 1 + j]);
      TighterIsHigher(ops[k + 1 + j], ops[k]);
    }
    var el := Spelled(items[..k + 1], left, level);
    var er := Spelled(items[k + 1..], right, level + 1);
    SpelledValue(ar, slots, el, items[..k + 1], left, level);
    SpelledValue(ar, slots, er, items[k + 1..], right, level + 1);
    OperationSpells(items, ops, k, el, er);
    SpelledValue(ar, slots, Operation(ops[k], el, er), items, ops, level);
    FitSplits(items, k + 1);
  }

  /** The value of unary operators that are applied to `x`. */
  function RunValue<N>(ar: Arith<N>, signs: seq<UnaryOp>, x: N): N {
    PrefixValue(ar, Collapse(START, signs).Prefix(), x)
  }

  /** `^` takes everything to its right as its exponent, and unary operators in front of
      its base apply to the whole power. */
  lemma {:induction false} PowerIsRightAssociative<N(!new)>(
    ar: Arith<N>, slots: seq<N>, items: seq<Item<N>>, ops: seq<Fn>, base: N, exponent: N
  )
    requires |items| == |ops| + 1 && AreItems(items) && ops != [] && forall i :: 0 <= i < |ops| ==> ops[i] == Pow
    requires HasValue(ar, slots, Body(items[0].primary), base)
    requires HasValue(ar, slots, Text(items[1..], ops[1..]), exponent)
    ensures HasValue(ar, slots, Text(items, ops), RunValue(ar, items[0].signs, ar.apply(Pow, [base, exponent])))
  {
    var r := Spelled(items[1..], ops[1..], FACTOR);
    var e := Operation(Pow, items[0].primary, r);
    SpelledValue(ar, slots, r, items[1..], ops[1..], FACTOR);
    CompileInvertsPrinting(ar, items[0].primary);
    PowerSpells(items, ops, r);
    SignedValue(ar, slots, START, items[0].signs, e);
    FitSplits(items, 1);
    SpelledValue(ar, slots, Signed(items[0].signs, e), items, ops, FACTOR);
  }

  /** Unary operators in front of a single operand. */
  lemma {:induction false} SignsApply<N(!new)>(ar: Arith<N>, slots: seq<N>, item: Item<N>, x: N)
    requires IsItem(item) && HasValue(ar, slots, Body(item.primary), x)
    ensures HasValue(ar, slots, Text([item], []), RunValue(ar, item.signs, x))
  {
    var e := Signed(item.signs, item.primary);
    SignedText(item.signs, item.primary);
    CompileInvertsPrinting(ar, item.primary);
    SignedValue(ar, slots, START, item.signs, item.primary);
    CompileInvertsPrinting(ar, e);
  }

  // ----- On single tokens -----

  predicate IsAtom<N>(t: Token<N>) {
    t.Number? || t.VariableName?
  }

  function AtomValue<N>(ar: Arith<N>, slots: seq<N>, t: Token<N>): N
    requires IsAtom(t)
  {
    match t
    case Number(v) => v
    case VariableName(s) => if s < |slots| then slots[s] else ar.nan
  }

  function Atom<N>(t: Token<N>): Ast<N>
    requires IsAtom(t)
  {
    match t
    case Number(v) => Num(v)
    case VariableName(s) => Name(s)
  }

  lemma {:induction false} AtomText<N>(ar: Arith<N>, slots: seq<N>, t: Token<N>)
    requires IsAtom(t)
    ensures Atom(t).WellFormed() && Body(Atom(t)) == [t] && BodyNesting(Atom(t)) == 1 && Level(Atom(t)) == BASE
    ensures CollapsedMeaning(ar, slots, START, Atom(t)) == AtomValue(ar, slots, t)
  {
  }

  lemma {:induction false} PrintedValue<N(!new)>(ar: Arith<N>, slots: seq<N>, e: Ast<N>, tokens: seq<Token<N>>, v: N)
    requires e.WellFormed() && Body(e) == tokens && BodyNesting(e) <= MAX_DEPTH
    requires CollapsedMeaning(ar, slots, START, e) == v
    ensures HasValue(ar, slots, tokens, v)
  {
    CompileInvertsPrinting(ar, e);
  }

  lemma {:induction false} RightOperation<N(!new)>(
    ar: Arith<N>, slots: seq<N>, a: Token<N>, g: Fn, b: Token<N>, f: Fn, c: Token<N>
  )
    requires IsAtom(a) && IsAtom(b) && IsAtom(c)
    requires RightLevel(g) <= LevelOf(f) <= FACTOR && LevelOf(g) <= FACTOR
    ensures HasValue(ar, slots, [a, Written(g), b, Written(f), c], ar.apply(g,
      [AtomValue(ar, slots, a), ar.apply(f, [AtomValue(ar, slots, b), AtomValue(ar, slots, c)])]))
  {
    AtomText(ar, slots, a);
    AtomText(ar, slots, b);
    AtomText(ar, slots, c);
    var right := Operation(f, Atom(b), Atom(c));
    OperationText(f, Atom(b), Atom(c));
    OperationText(g, Atom(a), right);
    PrintedValue(ar, slots, Operation(g, Atom(a), right), [a, Written(g), b, Written(f), c], ar.apply(g,
      [AtomValue(ar, slots, a), ar.apply(f, [AtomValue(ar, slots, b), AtomValue(ar, slots, c)])]));
  }

  lemma {:induction false} LeftOperation<N(!new)>(
    ar: Arith<N>, slots: seq<N>, a: Token<N>, f: Fn, b: Token<N>, g: Fn, c: Token<N>
  )
    requires IsAtom(a) && IsAtom(b) && IsAtom(c) && LevelOf(g) <= LevelOf(f) <= FACTOR && LevelOf(g) < FACTOR
    ensures HasValue(ar, slots, [a, Written(f), b, Written(g), c], ar.apply(g,
      [ar.apply(f, [AtomValue(ar, slots, a), AtomValue(ar, slots, b)]), AtomValue(ar, slots, c)]))
  {
    AtomText(ar, slots, a);
    AtomText(ar, slots, b);
    AtomText(ar, slots, c);
    var left := Operation(f, Atom(a), Atom(b));
    OperationText(f, Atom(a), Atom(b));
    OperationText(g, left, Atom(c));
    PrintedValue(ar, slots, Operation(g, left, Atom(c)), [a, Written(f), b, Written(g), c], ar.apply(g,
      [ar.apply(f, [AtomValue(ar, slots, a), AtomValue(ar, slots, b)]), AtomValue(ar, slots, c)]));
  }

  /** An operator of a later class is applied before one of an earlier class, on either
      side of it; operators of one class from left to right, but `^` from right to left. */
  lemma {:induction false} OperatorsBindByClass<N(!new)>(
    ar: Arith<N>, slots: seq<N>, a: Token<N>, b: Token<N>, c: Token<N>, f: Fn, i: nat, g: Fn, j: nat
  )
    requires IsAtom(a) && IsAtom(b) && IsAtom(c) && f in Class(i) && g in Class(j)
    ensures
      var x, y, z := AtomValue(ar, slots, a), AtomValue(ar, slots, b), AtomValue(ar, slots, c);
      var fromLeft, fromRight := ar.apply(g, [ar.apply(f, [x, y]), z]), ar.apply(f, [x, ar.apply(g, [y, z])]);
      HasValue(ar, slots, [a, Written(f), b, Written(g), c], if i < j || i == j == 7 then fromRight else fromLeft)
  {
    ClassIsLevel(f, i);
    ClassIsLevel(g, j);
    if i < j || i == j == 7 {
      RightOperation(ar, slots, a, f, b, g, c);
    } else {
      LeftOperation(ar, slots, a, f, b, g, c);
    }
  }

  /** A unary operator applies to what is behind it: to a power as a whole, also in an
      exponent, and to nothing but the operand in front of any other operator. */
  lemma {:induction false} UnaryOperatorsApply<N(!new)>(ar: Arith<N>, slots: seq<N>, a: Token<N>, b: Token<N>, f: Fn)
    requires IsAtom(a) && IsAtom(b) && IsOperator(f) && f != Pow
    ensures
      var x, y := AtomValue(ar, slots, a), AtomValue(ar, slots, b);
      && HasValue(ar, slots, [Infix(Sub), a], ar.apply(Negate, [x]))
      && HasValue(ar, slots, [Infix(Add), a], x)
      && HasValue(ar, slots, [Infix(LogicalNot), a], ar.apply(LogicalNot, [x]))
      && HasValue(ar, slots, [Infix(Sub), a, Infix(Pow), b], ar.apply(Negate, [ar.apply(Pow, [x, y])]))
      && HasValue(ar, slots, [a, Infix(Pow), Infix(Sub), b], ar.apply(Pow, [x, ar.apply(Negate, [y])]))
      && HasValue(ar, slots, [Infix(Sub), a, Written(f), b], ar.apply(f, [ar.apply(Negate, [x]), y]))
  {
    var x, y := AtomValue(ar, slots, a), AtomValue(ar, slots, b);
    AtomText(ar, slots, a);
    AtomText(ar, slots, b);
    OperatorLevel(f);
    assert LevelOf(f) != FACTOR by {
      assert f != Pow;
    }
    forall op: UnaryOp ensures Body(Unary(op, Atom(a))) == [UnaryToken(op), a] && BodyNesting(Unary(op, Atom(a))) == 1 {
      UnaryText(op, Atom(a));
    }
    PrintedValue(ar, slots, Unary(Minus, Atom(a)), [Infix(Sub), a], ar.apply(Negate, [x]));
    PrintedValue(ar, slots, Unary(Plus, Atom(a)), [Infix(Add), a], x);
    PrintedValue(ar, slots, Unary(Not, Atom(a)), [Infix(LogicalNot), a], ar.apply(LogicalNot, [x]));
    UnaryPowers(ar, slots, a, b);
    OperationText(f, Unary(Minus, Atom(a)), Atom(b));
    PrintedValue(ar, slots, Operation(f, Unary(Minus, Atom(a)), Atom(b)), [Infix(Sub), a, Written(f), b],
      ar.apply(f, [ar.apply(Negate, [x]), y]));
  }

  lemma {:induction false} UnaryPowers<N(!new)>(ar: Arith<N>, slots: seq<N>, a: Token<N>, b: Token<N>)
    requires IsAtom(a) && IsAtom(b)
    ensures
      var x, y := AtomValue(ar, slots, a), AtomValue(ar, slots, b);
      && HasValue(ar, slots, [Infix(Sub), a, Infix(Pow), b], ar.apply(Negate, [ar.apply(Pow, [x, y])]))
      && HasValue(ar, slots, [a, Infix(Pow), Infix(Sub), b], ar.apply(Pow, [x, ar.apply(Negate, [y])]))
  {
    var x, y := AtomValue(ar, slots, a), AtomValue(ar, slots, b);
    AtomText(ar, slots, a);
    AtomText(ar, slots, b);
    OperationText(Pow, Atom(a), Atom(b));
    UnaryText(Minus, Operation(Pow, Atom(a), Atom(b)));
    UnaryText(Minus, Atom(b));
    OperationText(Pow, Atom(a), Unary(Minus, Atom(b)));
    PrintedValue(ar, slots, Unary(Minus, Operation(Pow, Atom(a), Atom(b))), [Infix(Sub), a, Infix(Pow), b],
      ar.apply(Negate, [ar.apply(Pow, [x, y])]));
    assert Body(Unary(Minus, Atom(b))) == [Infix(Sub), b];
    assert CollapsedMeaning(ar, slots, START, Unary(Minus, Atom(b))) == ar.apply(Negate, [y]);
    PrintedValue(ar, slots, Operation(Pow, Atom(a), Unary(Minus, Atom(b))), [a, Infix(Pow), Infix(Sub), b],
      ar.apply(Pow, [x, ar.apply(Negate, [y])]));
  }

  /** Parentheses make their contents one operand, whatever the operators are. */
  lemma {:induction false} ParenthesesGroup<N(!new)>(
    ar: Arith<N>, slots: seq<N>, a: Token<N>, b: Token<N>, c: Token<N>, f: Fn, g: Fn
  )
    requires IsAtom(a) && IsAtom(b) && IsAtom(c) && IsOperator(f) && IsOperator(g)
    ensures
      var x, y, z := AtomValue(ar, slots, a), AtomValue(ar, slots, b), AtomValue(ar, slots, c);
      && HasValue(ar, slots, [Open, a, Written(f), b, Close, Written(g), c], ar.apply(g, [ar.apply(f, [x, y]), z]))
      && HasValue(ar, slots, [a, Written(f), Open, b, Written(g), c, Close], ar.apply(f, [x, ar.apply(g, [y, z])]))
  {
    var x, y, z := AtomValue(ar, slots, a), AtomValue(ar, slots, b), AtomValue(ar, slots, c);
    AtomText(ar, slots, a);
    AtomText(ar, slots, b);
    AtomText(ar, slots, c);
    OperatorLevel(f);
    OperatorLevel(g);
    GroupText(ar, slots, a, f, b);
    GroupText(ar, slots, b, g, c);
    var left, right := Paren(Operation(f, Atom(a), Atom(b))), Paren(Operation(g, Atom(b), Atom(c)));
    OperationText(g, left, Atom(c));
    OperationText(f, Atom(a), right);
    PrintedValue(ar, slots, Operation(g, left, Atom(c)), [Open, a, Written(f), b, Close, Written(g), c],
      ar.apply(g, [ar.apply(f, [x, y]), z]));
    PrintedValue(ar, slots, Operation(f, Atom(a), right), [a, Written(f), Open, b, Written(g), c, Close],
      ar.apply(f, [x, ar.apply(g, [y, z])]));
  }

  lemma {:induction false} GroupText<N>(ar: Arith<N>, slots: seq<N>, a: Token<N>, f: Fn, b: Token<N>)
    requires IsAtom(a) && IsAtom(b) && LevelOf(f) <= FACTOR
    ensures
      var e := Paren(Operation(f, Atom(a), Atom(b)));
      && e.WellFormed() && Level(e) == BASE && Body(e) == [Open, a, Written(f), b, Close] && BodyNesting(e) == 2
      && CollapsedMeaning(ar, slots, START, e) == ar.apply(f, [AtomValue(ar, slots, a), AtomValue(ar, slots, b)])
  {
    AtomText(ar, slots, a);
    AtomText(ar, slots, b);
    var e := Operation(f, Atom(a), Atom(b));
    OperationText(f, Atom(a), Atom(b));
    assert CollapsedMeaning(ar, slots, START, e) == ar.apply(f, [AtomValue(ar, slots, a), AtomValue(ar, slots, b)]);
    assert Body(Paren(e)) == [Open] + Body(e) + [Close];
  }

  // ----- Calls -----

  /** Operands separated by commas. */
  function Listed<N>(params: seq<Token<N>>): seq<Token<N>>
    requires params != []
  {
    if |params| == 1 then params else [params[0], Sep] + Listed(params[1..])
  }

  ghost predicate AreAtoms<N>(params: seq<Token<N>>) {
    forall i :: 0 <= i < |params| ==> IsAtom(params[i])
  }

  ghost function Values<N>(ar: Arith<N>, slots: seq<N>, params: seq<Token<N>>): seq<N>
    requires AreAtoms(params)
  {
    seq(|params|, i requires 0 <= i < |params| => AtomValue(ar, slots, params[i]))
  }

  ghost function Atoms<N>(params: seq<Token<N>>): seq<Ast<N>>
    requires AreAtoms(params)
  {
    seq(|params|, i requires 0 <= i < |params| => Atom(params[i]))
  }

  lemma {:induction false} ListedText<N>(params: seq<Token<N>>)
    requires params != [] && AreAtoms(params)
    ensures PrintArgs(Atoms(params)) == Listed(params) && ArgsNesting(Atoms(params)) == 1
  {
    assert Body(Atoms(params)[0]) == [params[0]];
    if |params| > 1 {
      ListedText(params[1..]);
      assert Atoms(params)[1..] == Atoms(params[1..]);
      assert [params[0]] + [Sep] + Listed(params[1..]) == Listed(params);
    }
  }

  /** A function is applied to its parameters in the order in which they are written. */
  lemma {:induction false} CallAppliesInOrder<N(!new)>(
    ar: Arith<N>, slots: seq<N>, name: string, pure: bool, params: seq<Token<N>>
  )
    requires |params| > 1 && AreAtoms(params)
    ensures HasValue(ar, slots, [FunctionName(name, |params|, pure), Open] + Listed(params) + [Close],
      ar.apply(Named(name, |params|), Values(ar, slots, params)))
  {
    var args := Atoms(params);
    var e := Call(name, pure, args);
    ListedText(params);
    forall i | 0 <= i < |args| ensures CollapsedMeaning(ar, slots, START, args[i]) == Values(ar, slots, params)[i] {
      AtomText(ar, slots, params[i]);
    }
    assert seq(|args|, i requires 0 <= i < |args| => CollapsedMeaning(ar, slots, START, args[i]))
        == Values(ar, slots, params);
    assert Body(e) == [FunctionName(name, |params|, pure), Open] + Listed(params) + [Close];
    PrintedValue(ar, slots, e, [FunctionName(name, |params|, pure), Open] + Listed(params) + [Close],
      ar.apply(Named(name, |params|), Values(ar, slots, params)));
  }

  /** A function of one parameter takes the operand behind it and no operator. */
  lemma {:induction false} CallBindsTightest<N(!new)>(
    ar: Arith<N>, slots: seq<N>, name: string, pure: bool, a: Token<N>, f: Fn, b: Token<N>
  )
    requires IsAtom(a) && IsAtom(b) && IsOperator(f)
    ensures
      var x, y := AtomValue(ar, slots, a), AtomValue(ar, slots, b);
      HasValue(ar, slots, [FunctionName(name, 1, pure), a, Written(f), b],
        ar.apply(f, [ar.apply(Named(name, 1), [x]), y]))
  {
    var x, y := AtomValue(ar, slots, a), AtomValue(ar, slots, b);
    AtomText(ar, slots, a);
    AtomText(ar, slots, b);
    OperatorLevel(f);
    var args := [Atom(a)];
    var call := Call(name, pure, args);
    assert Body(call) == [FunctionName(name, 1, pure), a];
    assert seq(|args|, i requires 0 <= i < |args| => CollapsedMeaning(ar, slots, START, args[i])) == [x];
    OperationText(f, call, Atom(b));
    PrintedValue(ar, slots, Operation(f, call, Atom(b)), [FunctionName(name, 1, pure), a, Written(f), b],
      ar.apply(f, [ar.apply(Named(name, 1), [x]), y]));
  }

  /** A function without parameters, with or without parentheses. */
  lemma {:induction false} CallWithoutParameters<N(!new)>(ar: Arith<N>, slots: seq<N>, name: string, pure: bool)
    ensures HasValue(ar, slots, [FunctionName(name, 0, pure)], ar.apply(Named(name, 0), []))
    ensures HasValue(ar, slots, [FunctionName(name, 0, pure), Open, Close], ar.apply(Named(name, 0), []))
  {
    var args: seq<Ast<N>> := [];
    assert seq(|args|, i requires 0 <= i < |args| => CollapsedMeaning(ar, slots, START, args[i])) == [];
    PrintedValue(ar, slots, Call(name, pure, []), [FunctionName(name, 0, pure)], ar.apply(Named(name, 0), []));
    PrintedValue(ar, slots, EmptyCall(name, pure), [FunctionName(name, 0, pure), Open, Close],
      ar.apply(Named(name, 0), []));
  }

  // ----- The nesting limit -----

  function Repeated<T>(t: T, n: nat): seq<T> {
    if n == 0 then [] else [t] + Repeated(t, n - 1)
  }

  function Parens<N>(n: nat, e: Ast<N>): Ast<N> {
    if n == 0 then e else Paren(Parens(n - 1, e))
  }

  lemma {:induction false} RepeatedAtEnd<T>(t: T, n: nat)
    ensures Repeated(t, n) + [t] == [t] + Repeated(t, n)
  {
    if n > 0 {
      RepeatedAtEnd(t, n - 1);
      assert [t] + Repeated(t, n - 1) + [t] == [t] + (Repeated(t, n - 1) + [t]);
    }
  }

  lemma {:induction false} ParensText<N>(n: nat, t: Token<N>)
    requires IsAtom(t)
    ensures var e := Parens(n, Atom(t));
      e.WellFormed() && Body(e) == Repeated(Open, n) + [t] + Repeated(Close, n) && BodyNesting(e) == n + 1
  {
    if n > 0 {
      ParensText(n - 1, t);
      var o, c := Repeated<Token<N>>(Open, n - 1), Repeated<Token<N>>(Close, n - 1);
      RepeatedAtEnd<Token<N>>(Close, n - 1);
      assert [Token<N>.Open] + (o + [t] + c) + [Close] == [Open] + o + [t] + (c + [Close]);
    } else {
      assert [] + [t] + [] == [t];
    }
  }

  /** Up to 511 parentheses around an operand are accepted; with more, te_compile gives
      up with -1. */
  lemma {:induction false} NestingLimit<N(!new)>(ar: Arith<N>, n: nat, t: Token<N>)
    requires IsAtom(t)
    ensures
      var c := Compile(ar, Repeated(Open, n) + [t] + Repeated(Close, n));
      if n <= 511 then c.Ok? else c == OutOfDepth
  {
    ParensText(n, t);
    CompileInvertsPrinting(ar, Parens(n, Atom(t)));
  }
}
