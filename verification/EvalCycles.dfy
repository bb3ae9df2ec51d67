/** The check for trigger cycles between evals. */
module EvalCycles {
  import opened EvalDeps

  /** The names that trigger an eval and the names its values publish. */
  datatype EvalCfg = EvalCfg(triggers: seq<nat>, published: seq<nat>)

  /** A name has at most one producer. */
  ghost predicate SingleProducer(evals: seq<EvalCfg>) {
    forall a, b, d :: 0 <= a < |evals| && 0 <= b < |evals| && d in evals[a].published && d in evals[b].published ==> a == b
  }

  /** Eval `a` publishes a trigger of eval `b`. */
  ghost predicate Triggers(evals: seq<EvalCfg>, a: nat, b: nat) {
    && a < |evals| && b < |evals|
    && exists t :: t in evals[b].triggers && t in evals[a].published
  }

  ghost predicate IsTriggerPath(evals: seq<EvalCfg>, p: seq<nat>) {
    && p != []
    && (forall i :: 0 <= i < |p| ==> p[i] < |evals|)
    && (forall i :: 0 <= i < |p| - 1 ==> Triggers(evals, p[i], p[i + 1]))
  }

  /** Each eval publishes a trigger of the next one, and the last is the first. */
  ghost predicate IsCycle(evals: seq<EvalCfg>, c: seq<nat>) {
    IsTriggerPath(evals, c) && |c| > 1 && c[|c| - 1] == c[0]
  }

  ghost predicate Acyclic(evals: seq<EvalCfg>) {
    forall c :: !IsCycle(evals, c)
  }

  /** All evals that `x` triggers come before position `i`. */
  ghost predicate TriggersBefore(evals: seq<EvalCfg>, order: seq<nat>, x: nat, i: nat)
    requires i <= |order|
  {
    forall y :: Triggers(evals, x, y) ==> y in order[..i]
  }

  /** An order in which every eval comes after all evals it triggers. */
  ghost predicate IsTopological(evals: seq<EvalCfg>, order: seq<nat>) {
    && Distinct(order)
    && (forall i :: 0 <= i < |order| ==> order[i] < |evals|)
    && (forall i :: 0 <= i < |order| ==> TriggersBefore(evals, order, order[i], i))
  }

  lemma {:induction false} PathGoesBack(evals: seq<EvalCfg>, order: seq<nat>, p: seq<nat>, i: nat)
    requires IsTopological(evals, order) && IsTriggerPath(evals, p) && i < |order| && order[i] == p[0] && |p| > 1
    ensures p[|p| - 1] in order[..i]
    decreases |p|
  {
    assert TriggersBefore(evals, order, order[i], i) && Triggers(evals, p[0], p[1]);
    var j :| 0 <= j < i && order[j] == p[1];
    if |p| > 2 {
      var q := p[1..];
      assert q[0] == p[1] && q[|q| - 1] == p[|p| - 1];
      PathGoesBack(evals, order, q, j);
      assert order[..j] <= order[..i];
    }
  }

  /** A topological order of all evals leaves no room for a cycle. */
  lemma TopologicalIsAcyclic(evals: seq<EvalCfg>, order: seq<nat>)
    requires IsTopological(evals, order) && forall x :: 0 <= x < |evals| ==> x in order
    ensures Acyclic(evals)
  {
    forall c ensures !IsCycle(evals, c) {
      if IsCycle(evals, c) {
        assert c[0] in order;
        var i :| 0 <= i < |order| && order[i] == c[0];
        PathGoesBack(evals, order, c, i);
      }
    }
  }

  // ----- The code -----

  /** eval_of: the eval publishing a name, or -1. */
  method EvalOf(evals: seq<EvalCfg>, d: nat) returns (r: int)
    ensures r == -1 ==> forall a :: 0 <= a < |evals| ==> d !in evals[a].published
    ensures r != -1 ==> 0 <= r < |evals| && d in evals[r].published
  {
    for a := 0 to |evals|
      invariant forall b :: 0 <= b < a ==> d !in evals[b].published
    {
      for k := 0 to |evals[a].published|
        invariant d !in evals[a].published[..k]
      {
        if evals[a].published[k] == d {
          return a;
        }
      }
      assert evals[a].published[..|evals[a].published|] == evals[a].published;
    }
    r := -1;
  }

  method TriggeredBy(evals: seq<EvalCfg>, b: nat, a: nat) returns (r: bool)
    requires a < |evals| && b < |evals| && SingleProducer(evals)
    ensures r <==> Triggers(evals, a, b)
  {
    var triggers := evals[b].triggers;
    for k := 0 to |triggers|
      invariant forall t :: t in triggers[..k] ==> t !in evals[a].published
    {
      var e := EvalOf(evals, triggers[k]);
      if e == a {
        return true;
      }
    }
    assert triggers[..|triggers|] == triggers;
    r := false;
  }

  /** The marks and the path of the search, and the finished evals in the order
      in which they were finished. */
  ghost predicate IsSearch(evals: seq<EvalCfg>, visit: seq<int>, path: seq<nat>, order: seq<nat>) {
    && |visit| == |evals|
    && Distinct(order + path) && (path != [] ==> IsTriggerPath(evals, path))
    && IsTopological(evals, order)
    && (forall x :: 0 <= x < |visit| ==> 0 <= visit[x] <= 2)
    && (forall x :: 0 <= x < |visit| ==> (visit[x] == 1 <==> x in path))
    && (forall x :: 0 <= x < |visit| ==> (visit[x] == 2 <==> x in order))
  }

  /** The path always has room: its depth stays below the number of evals. */
  lemma RoomLeft(evals: seq<EvalCfg>, visit: seq<int>, path: seq<nat>, order: seq<nat>, e: nat)
    requires IsSearch(evals, visit, path, order) && e < |evals| && visit[e] == 0
    ensures |order| + |path| < |evals|
  {
    var all := order + path + [e];
    forall i | 0 <= i < |all| ensures all[i] < |evals| {
      if |order| <= i < |order| + |path| {
        assert all[i] == path[i - |order|];
      }
    }
    forall i, j | 0 <= i < j < |all| ensures all[i] != all[j] {
      if j < |order| + |path| {
        assert all[i] == (order + path)[i] && all[j] == (order + path)[j];
      } else {
        assert all[i] in order || all[i] in path;
      }
    }
    Pigeonhole(all, |evals|);
  }

  lemma Push(evals: seq<EvalCfg>, visit: seq<int>, path: seq<nat>, order: seq<nat>, e: nat)
    requires IsSearch(evals, visit, path, order) && e < |evals| && visit[e] == 0
    requires path != [] ==> Triggers(evals, path[|path| - 1], e)
    ensures IsSearch(evals, visit[e := 1], path + [e], order)
  {
    assert order + (path + [e]) == (order + path) + [e];
    assert forall x :: x in order + path <==> x in order || x in path;
  }

  lemma DistinctMoved(order: seq<nat>, path: seq<nat>, e: nat)
    requires Distinct(order + (path + [e]))
    ensures Distinct(order + [e] + path) && e !in path
  {
    var before, after := order + (path + [e]), order + [e] + path;
    forall i, j | 0 <= i < j < |after| ensures after[i] != after[j] {
      var i' := if i < |order| then i else if i == |order| then |before| - 1 else i - 1;
      var j' := if j < |order| then j else if j == |order| then |before| - 1 else j - 1;
      assert after[i] == before[i'] && after[j] == before[j'];
    }
    forall k | 0 <= k < |path| ensures path[k] != e {
      assert before[|order| + k] != before[|before| - 1];
    }
  }

  lemma TopologicalMore(evals: seq<EvalCfg>, order: seq<nat>, e: nat)
    requires IsTopological(evals, order) && e < |evals| && Distinct(order + [e])
    requires forall y :: Triggers(evals, e, y) ==> y in order
    ensures IsTopological(evals, order + [e])
  {
    forall i | 0 <= i < |order| + 1 ensures TriggersBefore(evals, order + [e], (order + [e])[i], i) {
      assert (order + [e])[..i] == order[..i];
      assert order[..|order|] == order;
    }
  }

  lemma Pop(evals: seq<EvalCfg>, visit: seq<int>, path: seq<nat>, order: seq<nat>, e: nat)
    requires IsSearch(evals, visit, path + [e], order) && e < |evals|
    requires forall y :: Triggers(evals, e, y) ==> y in order
    ensures IsSearch(evals, visit[e := 2], path, order + [e])
  {
    DistinctMoved(order, path, e);
    assert Distinct(order + [e]) by {
      assert order + [e] == (order + [e] + path)[..|order| + 1];
    }
    TopologicalMore(evals, order, e);
    assert forall x :: x in path + [e] <==> x in path || x == e;
    if path != [] {
      assert forall i :: 0 <= i < |path| ==> path[i] == (path + [e])[i];
    }
  }

  class CycleCheck {
    const evals: seq<EvalCfg>
    const visit: array<int>
    const path: array<nat>

    constructor (evals: seq<EvalCfg>)
      ensures this.evals == evals && visit.Length == path.Length == |evals| && fresh(visit) && fresh(path)
      ensures forall x :: 0 <= x < |evals| ==> visit[x] == 0
    {
      this.evals := evals;
      visit := new int[|evals|](_ => 0);
      path := new nat[|evals|](_ => 0);
    }

    ghost predicate Valid(depth: nat, order: seq<nat>)
      reads visit, path
    {
      && path.Length == |evals| && depth <= path.Length && SingleProducer(evals)
      && IsSearch(evals, visit[..], path[..depth], order)
    }

    /** The start of visit: `e` goes on the path. */
    method Enter(e: nat, depth: nat, ghost order: seq<nat>)
      requires Valid(depth, order) && e < |evals| && visit[e] == 0
      requires depth > 0 ==> Triggers(evals, path[depth - 1], e)
      modifies visit, path
      ensures |order| + depth < |evals| && Valid(depth + 1, order)
      ensures path[..depth + 1] == old(path[..depth]) + [e]
    {
      RoomLeft(evals, visit[..], path[..depth], order, e);
      path[depth] := e;
      visit[e] := 1;
      Push(evals, old(visit[..]), old(path[..depth]), order, e);
      assert path[..depth + 1] == old(path[..depth]) + [e];
      assert visit[..] == old(visit[..])[e := 1];
    }

    /** The end of visit: `e` is finished. */
    method Leave(e: nat, depth: nat, ghost order: seq<nat>)
      requires depth < |evals| && Valid(depth + 1, order) && path[depth] == e && e < |evals|
      requires forall y :: Triggers(evals, e, y) ==> y in order
      modifies visit
      ensures Valid(depth, order + [e])
    {
      assert path[..depth + 1] == path[..depth] + [e];
      Pop(evals, visit[..], path[..depth], order, e);
      visit[e] := 2;
      assert visit[..] == old(visit[..])[e := 2];
    }

    /** visit: search from the unvisited eval `e`.  On failure the cycle that is
        logged is a real one. */
    method Visit(e: nat, depth: nat, ghost order: seq<nat>) returns (ok: bool, ghost order': seq<nat>, cycle: seq<nat>)
      requires Valid(depth, order) && e < |evals| && visit[e] == 0
      requires depth > 0 ==> Triggers(evals, path[depth - 1], e)
      modifies visit, path
      ensures ok ==> Valid(depth, order') && order <= order' && e in order' && path[..depth] == old(path[..depth])
      ensures !ok ==> IsCycle(evals, cycle)
      decreases |evals| - |order| - depth
    {
      Enter(e, depth, order);
      ghost var stack := path[..depth + 1];
      order', cycle := order, [];
      for b := 0 to |evals|
        invariant Valid(depth + 1, order') && order <= order' && path[..depth + 1] == stack
        invariant forall y :: 0 <= y < b && Triggers(evals, e, y) ==> y in order'
      {
        assert path[depth] == stack[depth] == e;
        var triggered := TriggeredBy(evals, b, e);
        if visit[b] == 2 || !triggered {
          continue;
        }
        if visit[b] == 0 {
          ok, order', cycle := Visit(b, depth + 1, order');
          if !ok {
            return;
          }
          continue;
        }
        ghost var start;
        cycle, start := Cycle(b, depth, order');
        ok := false;
        return;
      }
      assert path[depth] == stack[depth] == e;
      assert path[..depth] == stack[..depth];
      Leave(e, depth, order');
      order' := order' + [e];
      ok := true;
    }

    /** The logged message: from `b` along the path to its end and back to `b`. */
    method Cycle(b: nat, depth: nat, ghost order: seq<nat>) returns (cycle: seq<nat>, ghost start: nat)
      requires Valid(depth + 1, order) && b < |evals| && b in path[..depth + 1]
      requires Triggers(evals, path[depth], b)
      ensures IsCycle(evals, cycle)
      ensures start <= depth && cycle == path[start..depth + 1] + [b]
    {
      var i := 0;
      while path[i] != b
        invariant i <= depth && b !in path[..i]
        decreases depth - i
      {
        i := i + 1;
      }
      cycle, start := path[i..depth + 1] + [b], i;
      forall k | 0 <= k < |cycle| - 1 ensures Triggers(evals, cycle[k], cycle[k + 1]) {
        assert cycle[k] == path[..depth + 1][i + k];
        if k + 2 < |cycle| {
          assert cycle[k + 1] == path[..depth + 1][i + k + 1];
        }
      }
    }
  }

  // ----- check_cycles -----

  /** check_cycles succeeds exactly if no chain of triggers returns to its start.
      On success the evals finished in an order in which every eval comes after
      all evals it triggers. */
  method CheckCycles(evals: seq<EvalCfg>) returns (ok: bool, ghost order: seq<nat>, cycle: seq<nat>)
    requires SingleProducer(evals)
    ensures ok <==> Acyclic(evals)
    ensures ok ==> IsTopological(evals, order) && forall x :: 0 <= x < |evals| ==> x in order
    ensures !ok ==> IsCycle(evals, cycle)
  {
    var c := new CycleCheck(evals);
    order, cycle := [], [];
    for e := 0 to |evals|
      invariant fresh(c.visit) && fresh(c.path) && c.Valid(0, order)
      invariant forall x :: 0 <= x < e ==> x in order
    {
      if c.visit[e] == 0 {
        ok, order, cycle := c.Visit(e, 0, order);
        if !ok {
          return;
        }
      }
    }
    TopologicalIsAcyclic(evals, order);
    ok := true;
  }
}
