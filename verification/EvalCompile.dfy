/** The dependency walk over the compiled expressions of an eval. */
module EvalCompile {
  import opened TinyExpr
  import opened EvalDeps

  /** An outside value read by the eval: its name and its slot. */
  datatype In = In(disp: nat, slot: nat)

  /** The slots of a list of outside values. */
  function SlotsOf(ins: seq<In>, list: seq<nat>): set<nat> {
    set k | k in list && k < |ins| :: ins[k].slot
  }

  function Elements(list: seq<nat>): set<nat> {
    set k | k in list
  }

  /** The outside slots of a tree: above dt and the `count` own values. */
  function OutsideVars<N>(count: nat, e: Expr<N>): set<nat> {
    set s | s in Vars(e) && s > count
  }

  /** The tree reads own value `r`, which has slot r + 1. */
  predicate ReadsOwn<N>(e: Expr<N>, r: nat) {
    r + 1 in Vars(e)
  }

  /** The other own values a tree of value `v` reads. */
  function OwnVars<N>(count: nat, v: nat, e: Expr<N>): set<nat> {
    set r: nat | r < count && r != v && ReadsOwn(e, r)
  }

  ghost predicate HoldsLists(vs: seq<Deps>, insCount: nat) {
    WellFormed(vs, insCount) && forall v :: 0 <= v < |vs| ==> Distinct(vs[v].refs)
  }

  lemma SlotsOfMore(ins: seq<In>, ins': seq<In>, list: seq<nat>)
    requires ins <= ins' && forall i :: 0 <= i < |list| ==> list[i] < |ins|
    ensures SlotsOf(ins', list) == SlotsOf(ins, list)
  {
    assert forall k :: k in list ==> k < |ins|;
  }

  lemma SlotsOfAdd(ins: seq<In>, list: seq<nat>, k: nat)
    requires k < |ins|
    ensures SlotsOf(ins, AddIndexSpec(list, k)) == SlotsOf(ins, list) + {ins[k].slot}
  {
    assert forall j :: j in AddIndexSpec(list, k) <==> j in list || j == k;
  }

  /** What the first `i` parameters of a function read. */
  function OwnOfArgs<N>(count: nat, v: nat, args: seq<Expr<N>>, i: nat): set<nat>
    requires i <= |args|
  {
    if i == 0 then {} else OwnOfArgs(count, v, args, i - 1) + OwnVars(count, v, args[i - 1])
  }

  function OutsideOfArgs<N>(count: nat, args: seq<Expr<N>>, i: nat): set<nat>
    requires i <= |args|
  {
    if i == 0 then {} else OutsideOfArgs(count, args, i - 1) + OutsideVars(count, args[i - 1])
  }

  lemma {:induction false} OfArgs<N>(count: nat, v: nat, args: seq<Expr<N>>, i: nat, x: nat)
    requires i <= |args|
    ensures x in OwnOfArgs(count, v, args, i) <==> exists k :: 0 <= k < i && x in OwnVars(count, v, args[k])
    ensures x in OutsideOfArgs(count, args, i) <==> exists k :: 0 <= k < i && x in OutsideVars(count, args[k])
  {
    if i > 0 {
      OfArgs(count, v, args, i - 1, x);
    }
  }

  lemma VarsOfArgs<N>(count: nat, v: nat, n: Expr<N>)
    requires n.Function?
    ensures OwnVars(count, v, n) == OwnOfArgs(count, v, n.args, |n.args|)
    ensures OutsideVars(count, n) == OutsideOfArgs(count, n.args, |n.args|)
  {
    forall x: nat
      ensures x in OwnVars(count, v, n) <==> x in OwnOfArgs(count, v, n.args, |n.args|)
      ensures x in OutsideVars(count, n) <==> x in OutsideOfArgs(count, n.args, |n.args|)
    {
      OfArgs(count, v, n.args, |n.args|, x);
      OwnOfNode(count, v, n, x);
      OutsideOfNode(count, n, x);
    }
  }

  lemma OwnOfNode<N>(count: nat, v: nat, n: Expr<N>, r: nat)
    requires n.Function?
    ensures r in OwnVars(count, v, n) <==> exists k :: 0 <= k < |n.args| && r in OwnVars(count, v, n.args[k])
  {
    if r in OwnVars(count, v, n) {
      assert ReadsOwn(n, r);
      var k :| 0 <= k < |n.args| && r + 1 in Vars(n.args[k]);
      assert r in OwnVars(count, v, n.args[k]);
    }
    if k :| 0 <= k < |n.args| && r in OwnVars(count, v, n.args[k]) {
      assert ReadsOwn(n.args[k], r) && Vars(n.args[k]) <= Vars(n);
    }
  }

  lemma OutsideOfNode<N>(count: nat, n: Expr<N>, s: nat)
    requires n.Function?
    ensures s in OutsideVars(count, n) <==> exists k :: 0 <= k < |n.args| && s in OutsideVars(count, n.args[k])
  {
    if s in OutsideVars(count, n) {
      var k :| 0 <= k < |n.args| && s in Vars(n.args[k]);
      assert s in OutsideVars(count, n.args[k]);
    }
    if k :| 0 <= k < |n.args| && s in OutsideVars(count, n.args[k]) {
      assert Vars(n.args[k]) <= Vars(n);
    }
  }

  class DepWalk<N> {
    const values: array<Deps>
    const candIns: array<int>     // index into ins of each outside name; -1 = not read yet
    var ins: seq<In>

    ghost predicate Valid()
      reads this, values, candIns
    {
      && (forall k :: 0 <= k < |ins| ==>
            && ins[k].disp < candIns.Length && ins[k].slot == 1 + values.Length + ins[k].disp
            && candIns[ins[k].disp] == k)
      && (forall c :: 0 <= c < candIns.Length ==>
            candIns[c] == -1 || (0 <= candIns[c] < |ins| && ins[candIns[c]].disp == c))
      && HoldsLists(values[..], |ins|)
    }

    constructor (count: nat, cands: nat)
      ensures Valid() && values.Length == count && candIns.Length == cands && ins == []
      ensures fresh(values) && fresh(candIns)
      ensures forall v :: 0 <= v < count ==> values[v] == Deps([], [])
    {
      values := new Deps[count](_ => Deps([], []));
      candIns := new int[cands](_ => -1);
      ins := [];
    }

    /** walk: record the variables of the tree `n` for value `v`. */
    method Walk(v: nat, n: Expr<N>)
      requires Valid() && v < values.Length
      requires forall s :: s in Vars(n) ==> s <= values.Length + candIns.Length
      modifies this, values, candIns
      ensures Valid() && old(ins) <= ins
      ensures values[..] == old(values[..])[v := values[v]]
      ensures Elements(values[v].refs) == old(Elements(values[v].refs)) + OwnVars(values.Length, v, n)
      ensures SlotsOf(ins, values[v].ins) == old(SlotsOf(ins, values[v].ins)) + OutsideVars(values.Length, n)
    {
      match n
      case Variable(slot) =>
        assert slot in Vars(n);
        WalkVariable(v, n);
      case Function(_, _, args) =>
        for i := 0 to |args|
          invariant Valid() && old(ins) <= ins
          invariant values[..] == old(values[..])[v := values[v]]
          invariant Elements(values[v].refs) == old(Elements(values[v].refs))
            + OwnOfArgs(values.Length, v, args, i)
          invariant SlotsOf(ins, values[v].ins) == old(SlotsOf(ins, values[v].ins))
            + OutsideOfArgs(values.Length, args, i)
        {
          assert Vars(args[i]) <= Vars(n);
          Walk(v, args[i]);
        }
        VarsOfArgs(values.Length, v, n);
      case _ =>
    }

    /** The case of a variable: dt, an own value, or an outside value. */
    method WalkVariable(v: nat, n: Expr<N>)
      requires Valid() && v < values.Length && n.Variable? && n.slot <= values.Length + candIns.Length
      modifies this, values, candIns
      ensures Valid() && old(ins) <= ins
      ensures values[..] == old(values[..])[v := values[v]]
      ensures Elements(values[v].refs) == old(Elements(values[v].refs)) + OwnVars(values.Length, v, n)
      ensures SlotsOf(ins, values[v].ins) == old(SlotsOf(ins, values[v].ins)) + OutsideVars(values.Length, n)
    {
      if n.slot == 0 {
        assert Vars(n) == {0};
      } else if n.slot <= values.Length {
        ReadOwn(v, n.slot);
      } else {
        ReadOutside(v, n.slot);
      }
    }

    method ReadOwn(v: nat, slot: nat)
      requires Valid() && v < values.Length && 1 <= slot <= values.Length
      modifies values
      ensures Valid() && values[..] == old(values[..])[v := values[v]] && values[v].ins == old(values[v].ins)
      ensures Elements(values[v].refs) == old(Elements(values[v].refs)) + (if slot - 1 == v then {} else {slot - 1})
    {
      var own := slot - 1;
      if own != v {
        var refs := AddIndex(values[v].refs, own);
        values[v] := values[v].(refs := refs);
      }
    }

    method ReadOutside(v: nat, slot: nat)
      requires Valid() && v < values.Length && values.Length < slot <= values.Length + candIns.Length
      modifies this, values, candIns
      ensures Valid() && old(ins) <= ins
      ensures values[..] == old(values[..])[v := values[v]] && values[v].refs == old(values[v].refs)
      ensures SlotsOf(ins, values[v].ins) == old(SlotsOf(ins, values[v].ins)) + {slot}
    {
      var k := Register(slot - 1 - values.Length);
      SlotsOfMore(old(ins), ins, values[v].ins);
      SlotsOfAdd(ins, values[v].ins, k);
      AddInput(v, k);
    }

    /** The index of an outside name in the list of names read; a new one is appended. */
    method Register(cand: nat) returns (k: nat)
      requires Valid() && cand < candIns.Length
      modifies this, candIns
      ensures Valid() && old(ins) <= ins && k < |ins|
      ensures ins[k] == In(cand, 1 + values.Length + cand)
    {
      if candIns[cand] < 0 {
        candIns[cand] := |ins|;
        ins := ins + [In(cand, 1 + values.Length + cand)];
      }
      k := candIns[cand];
    }

    method AddInput(v: nat, k: nat)
      requires Valid() && v < values.Length && k < |ins|
      modifies values
      ensures Valid() && values[..] == old(values[..])[v := values[v]]
      ensures values[v] == old(values[v]).(ins := AddIndexSpec(old(values[v].ins), k))
    {
      var list := AddIndex(values[v].ins, k);
      values[v] := values[v].(ins := list);
    }
  }

  // ----- The dependencies of all values -----

  /** The consecutive values of the path read each other. */
  ghost predicate IsReadPath<N>(exprs: seq<Expr<N>>, p: seq<nat>) {
    && p != []
    && (forall i :: 0 <= i < |p| ==> p[i] < |exprs|)
    && (forall i :: 0 <= i < |p| - 1 ==> ReadsOwn(exprs[p[i]], p[i + 1]))
  }

  /** Value `v` depends on the outside value in slot `s`: the expression of some own
      value it reads, directly or through other own values, reads that slot. */
  ghost predicate DependsOn<N>(exprs: seq<Expr<N>>, v: nat, s: nat) {
    exists p :: IsReadPath(exprs, p) && p[0] == v && s in OutsideVars(|exprs|, exprs[p[|p| - 1]])
  }

  ghost predicate Walked<N>(exprs: seq<Expr<N>>, ins: seq<In>, vs: seq<Deps>, count: nat) {
    && |vs| == |exprs| && count <= |exprs|
    && forall v :: 0 <= v < count ==>
         && Elements(vs[v].refs) == OwnVars(|exprs|, v, exprs[v])
         && SlotsOf(ins, vs[v].ins) == OutsideVars(|exprs|, exprs[v])
  }

  lemma {:induction false} ReadPathReaches<N>(exprs: seq<Expr<N>>, ins: seq<In>, vs: seq<Deps>, p: seq<nat>)
    requires Walked(exprs, ins, vs, |exprs|) && IsReadPath(exprs, p)
    ensures Reaches(vs, p[0], p[|p| - 1])
    decreases |p|
  {
    ReachesItself(vs, p[0]);
    if |p| > 1 {
      var q := p[1..];
      assert forall i :: 0 <= i < |q| - 1 ==> q[i] == p[i + 1] && ReadsOwn(exprs[p[i + 1]], p[i + 2]);
      ReadPathReaches(exprs, ins, vs, q);
      if p[1] != p[0] {
        assert p[1] in Elements(vs[p[0]].refs);
        ReachesStep(vs, p[0], p[1], p[|p| - 1]);
      }
    }
  }

  /** What a value needs by its lists is what it depends on by its expressions. */
  lemma NeedsIsDependsOn<N>(exprs: seq<Expr<N>>, ins: seq<In>, vs: seq<Deps>, v: nat, x: nat)
    requires Walked(exprs, ins, vs, |exprs|) && WellFormed(vs, |ins|) && v < |vs| && x < |ins|
    requires forall j, k :: 0 <= j < k < |ins| ==> ins[j].slot != ins[k].slot
    ensures Needs(vs, v, x) <==> DependsOn(exprs, v, ins[x].slot)
  {
    if Needs(vs, v, x) {
      var u: nat :| u < |vs| && Reaches(vs, v, u) && x in vs[u].ins;
      var p :| IsPath(vs, p) && p[0] == v && p[|p| - 1] == u;
      forall i | 0 <= i < |p| - 1 ensures ReadsOwn(exprs[p[i]], p[i + 1]) {
        assert p[i + 1] in Elements(vs[p[i]].refs);
      }
      assert IsReadPath(exprs, p);
      assert ins[x].slot in SlotsOf(ins, vs[u].ins);
    }
    if DependsOn(exprs, v, ins[x].slot) {
      var p :| IsReadPath(exprs, p) && p[0] == v && ins[x].slot in OutsideVars(|exprs|, exprs[p[|p| - 1]]);
      ReadPathReaches(exprs, ins, vs, p);
      var u := p[|p| - 1];
      assert ins[x].slot in SlotsOf(ins, vs[u].ins);
      var k :| k in vs[u].ins && k < |ins| && ins[k].slot == ins[x].slot;
      assert k == x;
    }
  }

  /** The second half of compile_eval: walk all compiled expressions and close the
      inputs.  The outside values of a value are then exactly those it depends on. */
  method CompileEval<N>(exprs: seq<Expr<N>>, cands: nat) returns (w: DepWalk<N>)
    requires forall v, s :: 0 <= v < |exprs| && s in Vars(exprs[v]) ==> s <= |exprs| + cands
    ensures w.Valid() && w.values.Length == |exprs| && w.candIns.Length == cands
    ensures forall v :: 0 <= v < |exprs| ==> Elements(w.values[v].refs) == OwnVars(|exprs|, v, exprs[v])
    ensures forall v, s :: 0 <= v < |exprs| ==> (s in SlotsOf(w.ins, w.values[v].ins) <==> DependsOn(exprs, v, s))
  {
    w := new DepWalk<N>(|exprs|, cands);
    for v := 0 to |exprs|
      invariant fresh(w) && fresh(w.values) && fresh(w.candIns)
      invariant w.Valid() && w.values.Length == |exprs| && w.candIns.Length == cands
      invariant Walked(exprs, w.ins, w.values[..], v)
      invariant forall u :: v <= u < |exprs| ==> w.values[u] == Deps([], [])
    {
      WalkNext(w, exprs, v);
    }
    ghost var vs := w.values[..];
    CloseInputs(w.values, |w.ins|);
    ClosedDependencies(exprs, w.ins, vs, w.values[..]);
  }

  method WalkNext<N>(w: DepWalk<N>, exprs: seq<Expr<N>>, v: nat)
    requires w.Valid() && w.values.Length == |exprs| && v < |exprs|
    requires forall s :: s in Vars(exprs[v]) ==> s <= |exprs| + w.candIns.Length
    requires Walked(exprs, w.ins, w.values[..], v) && w.values[v] == Deps([], [])
    modifies w, w.values, w.candIns
    ensures w.Valid() && w.values[..] == old(w.values[..])[v := w.values[v]]
    ensures Walked(exprs, w.ins, w.values[..], v + 1)
  {
    ghost var ins, vs := w.ins, w.values[..];
    w.Walk(v, exprs[v]);
    forall u | 0 <= u < v ensures SlotsOf(w.ins, vs[u].ins) == SlotsOf(ins, vs[u].ins) {
      SlotsOfMore(ins, w.ins, vs[u].ins);
    }
    assert Elements([]) == {} && SlotsOf(ins, []) == {};
  }

  lemma ClosedDependencies<N>(exprs: seq<Expr<N>>, ins: seq<In>, vs: seq<Deps>, closed: seq<Deps>)
    requires Walked(exprs, ins, vs, |exprs|) && WellFormed(vs, |ins|) && Grown(vs, closed, |ins|)
    requires forall j, k :: 0 <= j < k < |ins| ==> ins[j].slot != ins[k].slot
    requires forall v, x :: 0 <= v < |vs| ==> (x in closed[v].ins <==> Needs(vs, v, x))
    ensures forall v, s :: 0 <= v < |exprs| ==> (s in SlotsOf(ins, closed[v].ins) <==> DependsOn(exprs, v, s))
  {
    forall v, s | 0 <= v < |exprs| ensures s in SlotsOf(ins, closed[v].ins) <==> DependsOn(exprs, v, s) {
      if s in SlotsOf(ins, closed[v].ins) {
        var x :| x in closed[v].ins && x < |ins| && ins[x].slot == s;
        NeedsIsDependsOn(exprs, ins, vs, v, x);
      }
      if DependsOn(exprs, v, s) {
        var p :| IsReadPath(exprs, p) && p[0] == v && s in OutsideVars(|exprs|, exprs[p[|p| - 1]]);
        assert s in SlotsOf(ins, vs[p[|p| - 1]].ins);
        var x :| x in vs[p[|p| - 1]].ins && x < |ins| && ins[x].slot == s;
        NeedsIsDependsOn(exprs, ins, vs, v, x);
      }
    }
  }
}
