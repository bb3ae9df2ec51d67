/** One evaluation of an eval, and what its values cannot depend on over whole runs. */
module EvalStep {
  import opened TinyExpr
  import opened EvalCompile

  /** The state of a value besides its number, which is in its slot. */
  datatype Status = Status(valid: bool, hasLast: bool, lastTs: int)

  /** What the dispatcher holds for an outside value when it is refreshed. */
  datatype Reading<N> = Reading(number: N, valid: bool)

  /** Numbers: the functions of expressions, isfinite, and milliseconds as seconds. */
  datatype Numbers<!N> = Numbers(ar: Arith<N>, finite: N -> bool, seconds: int -> N)

  /** A compiled eval: expressions in config order, the outside values read, and
      the closed list of outside values of each value. */
  datatype Program<N> = Program(exprs: seq<Expr<N>>, ins: seq<In>, lists: seq<seq<nat>>)

  /** The memory between two evaluations: slot 0 is dt, then the own values, then
      all outside names. */
  datatype Memory<N> = Memory(slots: seq<N>, vals: seq<Status>)

  /** What compilation guarantees: a slot for each variable, one per outside value,
      and lists that hold exactly the outside values a value depends on. */
  ghost predicate IsCompiled<N>(p: Program<N>, slotCount: nat) {
    && |p.exprs| < slotCount && |p.lists| == |p.exprs|
    && (forall v, s :: 0 <= v < |p.exprs| && s in Vars(p.exprs[v]) ==> s < slotCount)
    && (forall k :: 0 <= k < |p.ins| ==> |p.exprs| < p.ins[k].slot < slotCount)
    && (forall j, k :: 0 <= j < k < |p.ins| ==> p.ins[j].slot != p.ins[k].slot)
    && (forall v, i :: 0 <= v < |p.lists| && 0 <= i < |p.lists[v]| ==> p.lists[v][i] < |p.ins|)
    && (forall v, s :: 0 <= v < |p.exprs| ==> (s in SlotsOf(p.ins, p.lists[v]) <==> DependsOn(p.exprs, v, s)))
  }

  ghost predicate Fits<N>(p: Program<N>, m: Memory<N>) {
    IsCompiled(p, |m.slots|) && |m.vals| == |p.exprs|
  }

  /** dt of a value: the time since its last finite result, 0 after none. */
  function Dt<N>(nums: Numbers<N>, now: int, s: Status): N {
    nums.seconds(Elapsed(now, s))
  }

  function Elapsed(now: int, s: Status): int {
    if s.hasLast then now - s.lastTs else 0
  }

  ghost predicate IsInput<N>(p: Program<N>, s: nat) {
    exists k :: 0 <= k < |p.ins| && p.ins[k].slot == s
  }

  /** The evaluation did what it promises: every value sees its own dt, the
      refreshed outside values, the new results of the values above it and the
      previous results of itself and the values below it. */
  ghost predicate IsEvaluation<N>(
    nums: Numbers<N>, p: Program<N>, now: int, readings: seq<Reading<N>>, m: Memory<N>, m': Memory<N>
  )
    requires |readings| == |p.ins| && Fits(p, m) && Fits(p, m') && |m'.slots| == |m.slots|
  {
    && (forall k :: 0 <= k < |p.ins| ==> m'.slots[p.ins[k].slot] == readings[k].number)
    && (forall s :: |p.exprs| < s < |m.slots| && !IsInput(p, s) ==> m'.slots[s] == m.slots[s])
    && (forall v :: 0 <= v < |p.exprs| ==> IsResult(nums, p, now, readings, m, m', v))
  }

  /** What value `v` finds in slot `s`. */
  ghost function Seen<N>(nums: Numbers<N>, p: Program<N>, now: int, m: Memory<N>, m': Memory<N>, v: nat, s: nat): N
    requires v < |p.exprs| == |m.vals| < |m.slots| == |m'.slots| && s < |m.slots|
  {
    if s == 0 then Dt(nums, now, m.vals[v])
    else if v < s <= |p.exprs| then m.slots[s]
    else m'.slots[s]
  }

  /** The memory value `v` is evaluated in. */
  ghost function View<N>(nums: Numbers<N>, p: Program<N>, now: int, m: Memory<N>, m': Memory<N>, v: nat): seq<N>
    requires v < |p.exprs| == |m.vals| < |m.slots| == |m'.slots|
  {
    seq(|m.slots|, s requires 0 <= s < |m.slots| => Seen(nums, p, now, m, m', v, s))
  }

  /** The new state of value `v`.  It keeps its number if the result is not finite;
      it is valid if the result is finite and so are all outside values it depends on. */
  ghost predicate IsResult<N>(
    nums: Numbers<N>, p: Program<N>, now: int, readings: seq<Reading<N>>, m: Memory<N>, m': Memory<N>, v: nat
  )
    requires |readings| == |p.ins| && Fits(p, m) && Fits(p, m') && |m'.slots| == |m.slots| && v < |p.exprs|
  {
    var r := Eval(nums.ar, View(nums, p, now, m, m', v), p.exprs[v]);
    && (m'.slots[v + 1] == if nums.finite(r) then r else m.slots[v + 1])
    && (m'.vals[v].valid <==> nums.finite(r) && AllValid(p, readings, v))
    && m'.vals[v].hasLast == nums.finite(r)
    && (m'.vals[v].lastTs == if nums.finite(r) then now else m.vals[v].lastTs)
  }

  /** Every outside value that `v` depends on is valid. */
  ghost predicate AllValid<N>(p: Program<N>, readings: seq<Reading<N>>, v: nat)
    requires |readings| == |p.ins|
  {
    forall k :: 0 <= k < |p.ins| && DependsOn(p.exprs, v, p.ins[k].slot) ==> readings[k].valid
  }

  /** The validity loop looks at all outside values that `v` depends on. */
  lemma ListIsDependencies<N>(p: Program<N>, slotCount: nat, readings: seq<Reading<N>>, v: nat)
    requires IsCompiled(p, slotCount) && |readings| == |p.ins| && v < |p.exprs|
    ensures AllValid(p, readings, v) <==>
      forall i :: 0 <= i < |p.lists[v]| ==> readings[p.lists[v][i]].valid
  {
    forall i | 0 <= i < |p.lists[v]| ensures DependsOn(p.exprs, v, p.ins[p.lists[v][i]].slot) {
      assert p.lists[v][i] in p.lists[v];
    }
    forall k | 0 <= k < |p.ins| && DependsOn(p.exprs, v, p.ins[k].slot) ensures k in p.lists[v] {
      assert p.ins[k].slot in SlotsOf(p.ins, p.lists[v]);
    }
  }

  /** A later value leaves the results of the earlier ones alone. */
  lemma ResultKept<N>(
    nums: Numbers<N>, p: Program<N>, now: int, readings: seq<Reading<N>>, m: Memory<N>, m1: Memory<N>, m2: Memory<N>, u: nat
  )
    requires |readings| == |p.ins| && Fits(p, m) && Fits(p, m1) && Fits(p, m2) && |m2.slots| == |m1.slots| == |m.slots|
    requires u < |p.exprs| && IsResult(nums, p, now, readings, m, m1, u)
    requires forall s :: 0 < s < |m.slots| && (s <= u + 1 || |p.exprs| < s) ==> m2.slots[s] == m1.slots[s]
    requires m2.vals[u] == m1.vals[u]
    ensures IsResult(nums, p, now, readings, m, m2, u)
  {
    assert View(nums, p, now, m, m1, u) == View(nums, p, now, m, m2, u);
  }

  /** One round of the loop over the values: only value `v` and dt change. */
  ghost predicate IsRound<N>(
    nums: Numbers<N>, p: Program<N>, now: int, readings: seq<Reading<N>>, m: Memory<N>, m': Memory<N>, v: nat
  )
    requires |readings| == |p.ins| && Fits(p, m) && Fits(p, m') && |m'.slots| == |m.slots| && v < |p.exprs|
  {
    var r := Eval(nums.ar, m.slots[0 := Dt(nums, now, m.vals[v])], p.exprs[v]);
    && (forall s :: 0 < s < |m.slots| && s != v + 1 ==> m'.slots[s] == m.slots[s])
    && (forall u :: 0 <= u < |m.vals| && u != v ==> m'.vals[u] == m.vals[u])
    && (m'.slots[v + 1] == if nums.finite(r) then r else m.slots[v + 1])
    && (m'.vals[v].valid <==>
          nums.finite(r) && forall i :: 0 <= i < |p.lists[v]| ==> readings[p.lists[v][i]].valid)
    && m'.vals[v].hasLast == nums.finite(r)
    && (m'.vals[v].lastTs == if nums.finite(r) then now else m.vals[v].lastTs)
  }

  /** The state of an evaluation from `m` after the first `v` values. */
  ghost predicate EvaluatedTo<N>(
    nums: Numbers<N>, p: Program<N>, now: int, readings: seq<Reading<N>>, m: Memory<N>, m': Memory<N>, v: nat
  )
    requires |readings| == |p.ins| && Fits(p, m) && Fits(p, m') && |m'.slots| == |m.slots| && v <= |p.exprs|
  {
    && (forall k :: 0 <= k < |p.ins| ==> m'.slots[p.ins[k].slot] == readings[k].number)
    && (forall s :: |p.exprs| < s < |m.slots| && !IsInput(p, s) ==> m'.slots[s] == m.slots[s])
    && (forall s :: v < s <= |p.exprs| ==> m'.slots[s] == m.slots[s])
    && (forall u :: v <= u < |p.exprs| ==> m'.vals[u] == m.vals[u])
    && (forall u :: 0 <= u < v ==> IsResult(nums, p, now, readings, m, m', u))
  }

  lemma NextResult<N>(
    nums: Numbers<N>, p: Program<N>, now: int, readings: seq<Reading<N>>, m: Memory<N>, m1: Memory<N>, m2: Memory<N>, v: nat
  )
    requires |readings| == |p.ins| && Fits(p, m) && Fits(p, m1) && Fits(p, m2) && |m2.slots| == |m1.slots| == |m.slots|
    requires v < |p.exprs| && EvaluatedTo(nums, p, now, readings, m, m1, v) && IsRound(nums, p, now, readings, m1, m2, v)
    ensures IsResult(nums, p, now, readings, m, m2, v)
  {
    assert m1.slots[0 := Dt(nums, now, m1.vals[v])] == View(nums, p, now, m, m2, v);
    ListIsDependencies(p, |m.slots|, readings, v);
  }

  lemma NextEvaluated<N>(
    nums: Numbers<N>, p: Program<N>, now: int, readings: seq<Reading<N>>, m: Memory<N>, m1: Memory<N>, m2: Memory<N>, v: nat
  )
    requires |readings| == |p.ins| && Fits(p, m) && Fits(p, m1) && Fits(p, m2) && |m2.slots| == |m1.slots| == |m.slots|
    requires v < |p.exprs| && EvaluatedTo(nums, p, now, readings, m, m1, v) && IsRound(nums, p, now, readings, m1, m2, v)
    ensures EvaluatedTo(nums, p, now, readings, m, m2, v + 1)
  {
    forall u | 0 <= u < v + 1 ensures IsResult(nums, p, now, readings, m, m2, u) {
      if u < v {
        ResultKept(nums, p, now, readings, m, m1, m2, u);
      } else {
        NextResult(nums, p, now, readings, m, m1, m2, v);
      }
    }
  }

  // ----- The code -----

  class Evaluator<N> {
    const program: Program<N>
    const slots: array<N>
    const vals: array<Status>
    var inValid: seq<bool>

    ghost predicate Valid()
      reads this
    {
      IsCompiled(program, slots.Length) && vals.Length == |program.exprs| && |inValid| == |program.ins|
    }

    ghost function State(): Memory<N>
      reads slots, vals
    {
      Memory(slots[..], vals[..])
    }

    /** compile_eval: own slots start at their init_value, the others at zero. */
    constructor (exprs: seq<Expr<N>>, inits: seq<N>, cands: nat, zero: N)
      requires |inits| == |exprs|
      requires forall v, s :: 0 <= v < |exprs| && s in Vars(exprs[v]) ==> s <= |exprs| + cands
      ensures Valid() && program.exprs == exprs
      ensures fresh(slots) && fresh(vals)
      ensures forall v :: 0 <= v < |exprs| ==> slots[v + 1] == inits[v] && vals[v] == Status(false, false, 0)
    {
      var w := CompileEval(exprs, cands);
      var lists := seq(|exprs|, v requires 0 <= v < |exprs| reads w.values => w.values[v].ins);
      program := Program(exprs, w.ins, lists);
      slots := new N[1 + |exprs| + cands](s => if 0 < s <= |exprs| then inits[s - 1] else zero);
      inValid := seq(|w.ins|, _ => false);
      vals := new Status[|exprs|](_ => Status(false, false, 0));
    }

    /** The first loop of evaluate: refresh the outside values. */
    method Refresh(readings: seq<Reading<N>>)
      requires Valid() && |readings| == |program.ins|
      modifies slots, this`inValid
      ensures Valid() && forall k :: 0 <= k < |readings| ==> inValid[k] == readings[k].valid
      ensures forall k :: 0 <= k < |readings| ==> slots[program.ins[k].slot] == readings[k].number
      ensures forall s :: 0 <= s < slots.Length && !IsInput(program, s) ==> slots[s] == old(slots[s])
    {
      for k := 0 to |readings|
        invariant Valid() && forall j :: 0 <= j < k ==> inValid[j] == readings[j].valid
        invariant forall j :: 0 <= j < k ==> slots[program.ins[j].slot] == readings[j].number
        invariant forall s :: 0 <= s < slots.Length && !IsInput(program, s) ==> slots[s] == old(slots[s])
      {
        slots[program.ins[k].slot] := readings[k].number;
        inValid := inValid[k := readings[k].valid];
      }
    }

    /** The body of the second loop of evaluate. */
    method EvaluateValue(nums: Numbers<N>, now: int, v: nat, ghost readings: seq<Reading<N>>)
      requires Valid() && v < |program.exprs| && |readings| == |inValid|
      requires forall k :: 0 <= k < |readings| ==> inValid[k] == readings[k].valid
      modifies slots, vals
      ensures IsRound(nums, program, now, readings, old(State()), State(), v)
    {
      slots[0] := Dt(nums, now, vals[v]);
      var r := Eval(nums.ar, slots[..], program.exprs[v]);
      assert slots[..] == old(slots[..])[0 := old(Dt(nums, now, vals[v]))];
      var finite := nums.finite(r);
      if finite {
        slots[v + 1] := r;
      }
      var list, valid, i := program.lists[v], finite, 0;
      while i < |list| && valid
        invariant 0 <= i <= |list|
        invariant valid <==> finite && forall j :: 0 <= j < i ==> inValid[list[j]]
      {
        valid := inValid[list[i]];
        i := i + 1;
      }
      vals[v] := Status(valid, finite, if finite then now else vals[v].lastTs);
    }

    /** evaluate, up to publishing. */
    method Evaluate(nums: Numbers<N>, now: int, readings: seq<Reading<N>>)
      requires Valid() && |readings| == |program.ins|
      modifies slots, vals, this`inValid
      ensures Valid() && IsEvaluation(nums, program, now, readings, old(State()), State())
    {
      ghost var m := State();
      Refresh(readings);
      for v := 0 to |program.exprs|
        invariant Valid() && forall k :: 0 <= k < |readings| ==> inValid[k] == readings[k].valid
        invariant EvaluatedTo(nums, program, now, readings, m, State(), v)
      {
        ghost var before := State();
        EvaluateValue(nums, now, v, readings);
        NextEvaluated(nums, program, now, readings, m, before, State(), v);
      }
    }
  }

  // ----- Noninterference -----

  /** `v` reads `u`, directly or through other own values, or is `u`. */
  ghost predicate ReadsThrough<N>(exprs: seq<Expr<N>>, v: nat, u: nat) {
    exists p :: IsReadPath(exprs, p) && p[0] == v && p[|p| - 1] == u
  }

  /** Value `u` has the same number and the same dt now and later. */
  ghost predicate SameHistory<N>(u: nat, m1: Memory<N>, m2: Memory<N>)
    requires |m1.vals| == |m2.vals| && u < |m1.vals| < |m1.slots| == |m2.slots|
  {
    && m1.slots[u + 1] == m2.slots[u + 1]
    && m1.vals[u].hasLast == m2.vals[u].hasLast
    && (m1.vals[u].hasLast ==> m1.vals[u].lastTs == m2.vals[u].lastTs)
  }

  ghost predicate Agree<N>(p: Program<N>, v: nat, m1: Memory<N>, m2: Memory<N>)
    requires Fits(p, m1) && Fits(p, m2) && |m1.slots| == |m2.slots|
  {
    forall u :: 0 <= u < |p.exprs| && ReadsThrough(p.exprs, v, u) ==> SameHistory(u, m1, m2)
  }

  /** The readings agree on the outside values `v` depends on. */
  ghost predicate AgreeOnInputs<N>(p: Program<N>, v: nat, r1: seq<Reading<N>>, r2: seq<Reading<N>>)
    requires |r1| == |r2| == |p.ins|
  {
    forall k :: 0 <= k < |p.ins| && DependsOn(p.exprs, v, p.ins[k].slot) ==> r1[k] == r2[k]
  }

  lemma ReadsThroughItself<N>(exprs: seq<Expr<N>>, v: nat)
    requires v < |exprs|
    ensures ReadsThrough(exprs, v, v)
  {
    assert IsReadPath(exprs, [v]);
  }

  lemma ReadsThroughStep<N>(exprs: seq<Expr<N>>, v: nat, u: nat, w: nat)
    requires ReadsThrough(exprs, v, u) && w < |exprs| && ReadsOwn(exprs[u], w)
    ensures ReadsThrough(exprs, v, w)
  {
    var p :| IsReadPath(exprs, p) && p[0] == v && p[|p| - 1] == u;
    var q := p + [w];
    assert forall i :: 0 <= i < |q| - 1 ==> ReadsOwn(exprs[q[i]], q[i + 1]);
    assert IsReadPath(exprs, q);
  }

  /** The inputs of a value that is read are inputs of the reader. */
  lemma DependsOnThrough<N>(exprs: seq<Expr<N>>, v: nat, u: nat, s: nat)
    requires ReadsThrough(exprs, v, u) && DependsOn(exprs, u, s)
    ensures DependsOn(exprs, v, s)
  {
    var p :| IsReadPath(exprs, p) && p[0] == v && p[|p| - 1] == u;
    var q :| IsReadPath(exprs, q) && q[0] == u && s in OutsideVars(|exprs|, exprs[q[|q| - 1]]);
    var r := p[..|p| - 1] + q;
    forall i | 0 <= i < |r| - 1 ensures ReadsOwn(exprs[r[i]], r[i + 1]) {
      if i < |p| - 1 {
        assert r[i + 1] == p[i + 1];
      } else {
        assert r[i] == q[i - (|p| - 1)];
      }
    }
    assert IsReadPath(exprs, r);
  }

  /** What an expression that `v` reads through sees in a slot, given the same
      results above it. */
  lemma ViewsAgree<N>(
    nums: Numbers<N>, p: Program<N>, now: int, r1: seq<Reading<N>>, r2: seq<Reading<N>>,
    m1: Memory<N>, m2: Memory<N>, m1': Memory<N>, m2': Memory<N>, v: nat, u: nat, s: nat
  )
    requires IsStepOf(nums, p, now, r1, m1, m1') && IsStepOf(nums, p, now, r2, m2, m2') && |m1.slots| == |m2.slots|
    requires v < |p.exprs| && Agree(p, v, m1, m2) && AgreeOnInputs(p, v, r1, r2)
    requires u < |p.exprs| && ReadsThrough(p.exprs, v, u) && s in Vars(p.exprs[u])
    requires forall w :: 0 <= w < u && ReadsThrough(p.exprs, v, w) ==> SameHistory(w, m1', m2')
    ensures Seen(nums, p, now, m1, m1', u, s) == Seen(nums, p, now, m2, m2', u, s)
  {
    if s == 0 {
      assert SameHistory(u, m1, m2);
      assert Elapsed(now, m1.vals[u]) == Elapsed(now, m2.vals[u]);
    } else if s <= |p.exprs| {
      var w: nat := s - 1;
      assert ReadsOwn(p.exprs[u], w);
      ReadsThroughStep(p.exprs, v, u, w);
      assert SameHistory(w, m1, m2);
    } else {
      InputOf(p, |m1.slots|, u, s);
      var k :| 0 <= k < |p.ins| && p.ins[k].slot == s;
      DependsOnThrough(p.exprs, v, u, s);
      assert m1'.slots[p.ins[k].slot] == r1[k].number && m2'.slots[p.ins[k].slot] == r2[k].number;
    }
  }

  /** One evaluation keeps the agreement on all that `v` reads through, although
      values read new results above and old ones below. */
  lemma {:induction false} StepAgrees<N>(
    nums: Numbers<N>, p: Program<N>, now: int, r1: seq<Reading<N>>, r2: seq<Reading<N>>,
    m1: Memory<N>, m2: Memory<N>, m1': Memory<N>, m2': Memory<N>, v: nat, u: nat
  )
    requires IsStepOf(nums, p, now, r1, m1, m1') && IsStepOf(nums, p, now, r2, m2, m2') && |m1.slots| == |m2.slots|
    requires v < |p.exprs| && Agree(p, v, m1, m2) && AgreeOnInputs(p, v, r1, r2)
    requires u < |p.exprs| && ReadsThrough(p.exprs, v, u)
    ensures SameHistory(u, m1', m2') && m1'.vals[u].valid == m2'.vals[u].valid
    decreases u
  {
    forall w | 0 <= w < u && ReadsThrough(p.exprs, v, w) ensures SameHistory(w, m1', m2') {
      StepAgrees(nums, p, now, r1, r2, m1, m2, m1', m2', v, w);
    }
    var view1, view2 := View(nums, p, now, m1, m1', u), View(nums, p, now, m2, m2', u);
    forall s | s in Vars(p.exprs[u]) ensures view1[s] == view2[s] {
      ViewsAgree(nums, p, now, r1, r2, m1, m2, m1', m2', v, u, s);
    }
    assert SameHistory(u, m1, m2);
    assert IsResult(nums, p, now, r1, m1, m1', u) && IsResult(nums, p, now, r2, m2, m2', u);
    EvalReadsOnlyVars(nums.ar, view1, view2, p.exprs[u]);
    forall k | 0 <= k < |p.ins| && DependsOn(p.exprs, u, p.ins[k].slot) ensures r1[k] == r2[k] {
      DependsOnThrough(p.exprs, v, u, p.ins[k].slot);
    }
  }

  /** Every outside slot an expression reads is refreshed. */
  lemma InputOf<N>(p: Program<N>, slotCount: nat, u: nat, s: nat)
    requires IsCompiled(p, slotCount) && u < |p.exprs| && s in Vars(p.exprs[u]) && s > |p.exprs|
    ensures DependsOn(p.exprs, u, s) && IsInput(p, s)
  {
    assert IsReadPath(p.exprs, [u]) && s in OutsideVars(|p.exprs|, p.exprs[u]);
    assert s in SlotsOf(p.ins, p.lists[u]);
  }

  ghost predicate IsStepOf<N>(
    nums: Numbers<N>, p: Program<N>, now: int, readings: seq<Reading<N>>, m: Memory<N>, m': Memory<N>
  ) {
    && |readings| == |p.ins| && Fits(p, m) && Fits(p, m') && |m'.slots| == |m.slots|
    && IsEvaluation(nums, p, now, readings, m, m')
  }

  /** The memories of a run: evaluation `i` happens at `times[i]`. */
  ghost predicate IsRun<N>(
    nums: Numbers<N>, p: Program<N>, times: seq<int>, readings: seq<seq<Reading<N>>>, run: seq<Memory<N>>
  ) {
    && |readings| == |times| && |run| == |times| + 1
    && (forall i :: 0 <= i < |run| ==> Fits(p, run[i]) && |run[i].slots| == |run[0].slots|)
    && (forall i :: 0 <= i < |times| ==> IsStepOf(nums, p, times[i], readings[i], run[i], run[i + 1]))
  }

  /** If two runs evaluate at the same times and agree at every evaluation on the
      outside values that `v` depends on, then `v` has the same number, validity and
      dt in both, whatever happens to everything else. */
  lemma {:induction false} Noninterference<N>(
    nums: Numbers<N>, p: Program<N>, times: seq<int>, in1: seq<seq<Reading<N>>>, in2: seq<seq<Reading<N>>>,
    run1: seq<Memory<N>>, run2: seq<Memory<N>>, v: nat, n: nat
  )
    requires IsRun(nums, p, times, in1, run1) && IsRun(nums, p, times, in2, run2)
    requires |run1[0].slots| == |run2[0].slots| && v < |p.exprs| && Agree(p, v, run1[0], run2[0])
    requires forall i :: 0 <= i < |times| ==> |in1[i]| == |in2[i]| == |p.ins| && AgreeOnInputs(p, v, in1[i], in2[i])
    requires n < |run1|
    ensures Agree(p, v, run1[n], run2[n]) && SameHistory(v, run1[n], run2[n])
    ensures n > 0 ==> run1[n].vals[v].valid == run2[n].vals[v].valid
    decreases n
  {
    ReadsThroughItself(p.exprs, v);
    if n > 0 {
      Noninterference(nums, p, times, in1, in2, run1, run2, v, n - 1);
      RunStepAgrees(nums, p, times, in1, in2, run1, run2, v, n - 1);
    }
  }

  lemma RunStepAgrees<N>(
    nums: Numbers<N>, p: Program<N>, times: seq<int>, in1: seq<seq<Reading<N>>>, in2: seq<seq<Reading<N>>>,
    run1: seq<Memory<N>>, run2: seq<Memory<N>>, v: nat, i: nat
  )
    requires IsRun(nums, p, times, in1, run1) && IsRun(nums, p, times, in2, run2) && i < |times|
    requires |run1[0].slots| == |run2[0].slots| && v < |p.exprs| && Agree(p, v, run1[i], run2[i])
    requires |in1[i]| == |in2[i]| == |p.ins| && AgreeOnInputs(p, v, in1[i], in2[i])
    ensures Agree(p, v, run1[i + 1], run2[i + 1])
    ensures run1[i + 1].vals[v].valid == run2[i + 1].vals[v].valid
  {
    forall u | 0 <= u < |p.exprs| && ReadsThrough(p.exprs, v, u)
      ensures SameHistory(u, run1[i + 1], run2[i + 1]) && run1[i + 1].vals[u].valid == run2[i + 1].vals[u].valid
    {
      StepAgrees(nums, p, times[i], in1[i], in2[i], run1[i], run2[i], run1[i + 1], run2[i + 1], v, u);
    }
    ReadsThroughItself(p.exprs, v);
  }

  // ----- dt and numbers over a run -----

  /** The result of value `v` at evaluation `i` of a run. */
  ghost function ResultAt<N>(nums: Numbers<N>, p: Program<N>, times: seq<int>, run: seq<Memory<N>>, v: nat, i: nat): N
    requires |run| == |times| + 1 && i < |times| && v < |p.exprs|
    requires Fits(p, run[i]) && Fits(p, run[i + 1]) && |run[i].slots| == |run[i + 1].slots|
  {
    Eval(nums.ar, View(nums, p, times[i], run[i], run[i + 1], v), p.exprs[v])
  }

  lemma ResultIsKept<N>(
    nums: Numbers<N>, p: Program<N>, times: seq<int>, readings: seq<seq<Reading<N>>>, run: seq<Memory<N>>, v: nat, i: nat
  )
    requires IsRun(nums, p, times, readings, run) && v < |p.exprs| && i < |times|
    ensures |run[i].slots| == |run[i + 1].slots|
    ensures
      var r := ResultAt(nums, p, times, run, v, i);
      && run[i + 1].vals[v].hasLast == nums.finite(r) && (nums.finite(r) ==> run[i + 1].vals[v].lastTs == times[i])
      && run[i + 1].slots[v + 1] == if nums.finite(r) then r else run[i].slots[v + 1]
  {
    assert IsStepOf(nums, p, times[i], readings[i], run[i], run[i + 1]);
    assert IsResult(nums, p, times[i], readings[i], run[i], run[i + 1], v);
  }

  /** What a value finds as dt in slot 0: the time since the evaluation before, if its
      result was finite then, and otherwise, as at the first evaluation, 0. */
  lemma DtIsTimeSinceFinite<N>(
    nums: Numbers<N>, p: Program<N>, times: seq<int>, readings: seq<seq<Reading<N>>>, run: seq<Memory<N>>, v: nat, i: nat
  )
    requires IsRun(nums, p, times, readings, run) && v < |p.exprs| && i < |times| && !run[0].vals[v].hasLast
    ensures |run[i].slots| == |run[i + 1].slots|
    ensures
      View(nums, p, times[i], run[i], run[i + 1], v)[0] ==
        if i > 0 && nums.finite(Eval(nums.ar, View(nums, p, times[i - 1], run[i - 1], run[i], v), p.exprs[v]))
        then nums.seconds(times[i] - times[i - 1]) else nums.seconds(0)
  {
    if i > 0 {
      ResultIsKept(nums, p, times, readings, run, v, i - 1);
    }
  }

  /** The number of a value is its last finite result, or the initial one before any. */
  lemma {:induction false} NumberIsLastFinite<N>(
    nums: Numbers<N>, p: Program<N>, times: seq<int>, readings: seq<seq<Reading<N>>>, run: seq<Memory<N>>,
    v: nat, j: nat, n: nat
  )
    requires IsRun(nums, p, times, readings, run) && v < |p.exprs| && j <= n <= |times|
    requires forall i :: 0 <= i < |times| ==> |run[i].slots| == |run[i + 1].slots|
    requires forall i :: j <= i < n ==> !nums.finite(ResultAt(nums, p, times, run, v, i))
    ensures j == 0 ==> run[n].slots[v + 1] == run[0].slots[v + 1]
    ensures j > 0 && nums.finite(ResultAt(nums, p, times, run, v, j - 1)) ==>
      run[n].slots[v + 1] == ResultAt(nums, p, times, run, v, j - 1)
  {
    if n > j {
      NumberIsLastFinite(nums, p, times, readings, run, v, j, n - 1);
      ResultIsKept(nums, p, times, readings, run, v, n - 1);
    } else if n > 0 {
      ResultIsKept(nums, p, times, readings, run, v, n - 1);
    }
  }

  // ----- The dependencies are exact -----

  /** Numbers in which everything is finite and a mark is passed on by every function. */
  ghost function MarkingNumbers<N(!new)>(plain: N, mark: N): Numbers<N> {
    Numbers(Marking(plain, mark), _ => true, _ => plain)
  }

  ghost predicate MarkIsFresh<N>(p: Program<N>, mark: N) {
    forall v :: 0 <= v < |p.exprs| ==> NoConstant(mark, p.exprs[v])
  }

  /** A value that reads a marked slot is marked. */
  lemma {:induction false} MarkIsRead<N(!new)>(
    p: Program<N>, plain: N, mark: N, times: seq<int>, readings: seq<seq<Reading<N>>>, run: seq<Memory<N>>,
    v: nat, s: nat, i: nat
  )
    requires IsRun(MarkingNumbers(plain, mark), p, times, readings, run) && plain != mark && MarkIsFresh(p, mark)
    requires v < |p.exprs| && i < |times| && 0 < s < |run[i].slots| && s in Vars(p.exprs[v])
    requires (if v < s <= |p.exprs| then run[i] else run[i + 1]).slots[s] == mark
    ensures run[i + 1].slots[v + 1] == mark
  {
    var nums := MarkingNumbers(plain, mark);
    ResultIsKept(nums, p, times, readings, run, v, i);
    var view := View(nums, p, times[i], run[i], run[i + 1], v);
    assert view[s] == mark;
    VarsAreRead(view, plain, mark, p.exprs[v]);
  }

  /** Every outside value in the list of a value can change it: the mark of that outside
      value reaches it, along any path of values that read each other, in at most as
      many evaluations as the path has values. */
  lemma {:induction false} DependenceReaches<N(!new)>(
    p: Program<N>, plain: N, mark: N, times: seq<int>, readings: seq<seq<Reading<N>>>, run: seq<Memory<N>>,
    path: seq<nat>, k: nat, n: nat
  )
    requires IsRun(MarkingNumbers(plain, mark), p, times, readings, run) && plain != mark && MarkIsFresh(p, mark)
    requires IsReadPath(p.exprs, path) && k < |p.ins|
    requires p.ins[k].slot in OutsideVars(|p.exprs|, p.exprs[path[|path| - 1]])
    requires forall i :: 0 <= i < |times| ==> |readings[i]| == |p.ins| && readings[i][k].number == mark
    requires |path| <= n <= |times|
    ensures run[n].slots[path[0] + 1] == mark
    decreases |path|
  {
    assert IsStepOf(MarkingNumbers(plain, mark), p, times[n - 1], readings[n - 1], run[n - 1], run[n]);
    if |path| == 1 {
      MarkIsRead(p, plain, mark, times, readings, run, path[0], p.ins[k].slot, n - 1);
    } else {
      var rest := path[1..];
      forall i | 0 <= i < |rest| - 1 ensures ReadsOwn(p.exprs[rest[i]], rest[i + 1]) {
        assert rest[i] == path[i + 1] && rest[i + 1] == path[i + 2];
      }
      assert IsReadPath(p.exprs, rest);
      DependenceReaches(p, plain, mark, times, readings, run, rest, k, n - 1);
      DependenceReaches(p, plain, mark, times, readings, run, rest, k, n);
      assert ReadsOwn(p.exprs[path[0]], path[1]);
      MarkIsRead(p, plain, mark, times, readings, run, path[0], path[1] + 1, n - 1);
    }
  }

  /** No value that `v` reads through is marked. */
  ghost predicate Unmarked<N>(p: Program<N>, mark: N, m: Memory<N>, v: nat)
    requires Fits(p, m) && v < |p.exprs|
  {
    forall u :: 0 <= u < |p.exprs| && ReadsThrough(p.exprs, v, u) ==> m.slots[u + 1] != mark
  }

  lemma {:induction false} StepStaysUnmarked<N(!new)>(
    p: Program<N>, plain: N, mark: N, times: seq<int>, readings: seq<seq<Reading<N>>>, run: seq<Memory<N>>,
    v: nat, u: nat, i: nat
  )
    requires IsRun(MarkingNumbers(plain, mark), p, times, readings, run) && plain != mark && MarkIsFresh(p, mark)
    requires v < |p.exprs| && i < |times| && Unmarked(p, mark, run[i], v)
    requires |readings[i]| == |p.ins|
    requires forall k :: 0 <= k < |p.ins| && DependsOn(p.exprs, v, p.ins[k].slot) ==> readings[i][k].number != mark
    requires u < |p.exprs| && ReadsThrough(p.exprs, v, u)
    ensures run[i + 1].slots[u + 1] != mark
    decreases u
  {
    var nums := MarkingNumbers(plain, mark);
    ResultIsKept(nums, p, times, readings, run, u, i);
    assert IsStepOf(nums, p, times[i], readings[i], run[i], run[i + 1]);
    var view := View(nums, p, times[i], run[i], run[i + 1], u);
    forall s | s in Vars(p.exprs[u]) && s < |view| ensures view[s] != mark {
      if 0 < s <= |p.exprs| {
        assert ReadsOwn(p.exprs[u], s - 1);
        ReadsThroughStep(p.exprs, v, u, s - 1);
        if s - 1 < u {
          StepStaysUnmarked(p, plain, mark, times, readings, run, v, s - 1, i);
        }
      } else if s > 0 {
        InputOf(p, |run[i].slots|, u, s);
        DependsOnThrough(p.exprs, v, u, s);
      }
    }
    VarsAreRead(view, plain, mark, p.exprs[u]);
  }

  /** And nothing but the outside values in its list can. */
  lemma {:induction false} NothingElseReaches<N(!new)>(
    p: Program<N>, plain: N, mark: N, times: seq<int>, readings: seq<seq<Reading<N>>>, run: seq<Memory<N>>,
    v: nat, n: nat
  )
    requires IsRun(MarkingNumbers(plain, mark), p, times, readings, run) && plain != mark && MarkIsFresh(p, mark)
    requires v < |p.exprs| && n <= |times| && Unmarked(p, mark, run[0], v)
    requires forall i :: 0 <= i < |times| ==> |readings[i]| == |p.ins|
    requires forall i, k :: 0 <= i < |times| && 0 <= k < |p.ins| && DependsOn(p.exprs, v, p.ins[k].slot) ==>
      readings[i][k].number != mark
    ensures Unmarked(p, mark, run[n], v) && run[n].slots[v + 1] != mark
  {
    ReadsThroughItself(p.exprs, v);
    if n > 0 {
      NothingElseReaches(p, plain, mark, times, readings, run, v, n - 1);
      forall u | 0 <= u < |p.exprs| && ReadsThrough(p.exprs, v, u) ensures run[n].slots[u + 1] != mark {
        StepStaysUnmarked(p, plain, mark, times, readings, run, v, u, n - 1);
      }
    }
  }
}
