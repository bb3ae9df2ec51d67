/** Which outside values each value of an eval depends on. */
module EvalDeps {

  // ----- Lists without duplicates -----

  ghost predicate Distinct(s: seq<nat>) {
    forall i, j :: 0 <= i < j < |s| ==> s[i] != s[j]
  }

  function AddIndexSpec(list: seq<nat>, idx: nat): seq<nat> {
    if idx in list then list else list + [idx]
  }

  /** add_index: append unless contained. */
  method AddIndex(list: seq<nat>, idx: nat) returns (r: seq<nat>)
    ensures r == AddIndexSpec(list, idx)
  {
    for i := 0 to |list|
      invariant idx !in list[..i]
    {
      if list[i] == idx {
        return list;
      }
    }
    assert list[..|list|] == list;
    r := list + [idx];
  }

  /** A list without duplicates of numbers below n has at most n entries. */
  lemma {:induction false} Pigeonhole(s: seq<nat>, n: nat)
    requires Distinct(s) && forall i :: 0 <= i < |s| ==> s[i] < n
    ensures |s| <= n
    decreases n
  {
    if s != [] {
      assert s[0] < n;
      if n - 1 in s {
        var k :| 0 <= k < |s| && s[k] == n - 1;
        Pigeonhole(s[..k] + s[k + 1..], n - 1);
      } else {
        Pigeonhole(s, n - 1);
      }
    }
  }

  // ----- The closure -----

  /** A value: the indices of the outside values it depends on and of the other
      own values it reads. */
  datatype Deps = Deps(ins: seq<nat>, refs: seq<nat>)

  /** Consecutive values of the path read each other. */
  ghost predicate IsPath(vs: seq<Deps>, p: seq<nat>) {
    && p != []
    && (forall i :: 0 <= i < |p| ==> p[i] < |vs|)
    && (forall i :: 0 <= i < |p| - 1 ==> p[i + 1] in vs[p[i]].refs)
  }

  /** `u` is `v` or is read by it, directly or through other own values. */
  ghost predicate Reaches(vs: seq<Deps>, v: nat, u: nat) {
    exists p :: IsPath(vs, p) && p[0] == v && p[|p| - 1] == u
  }

  /** `x` is read directly by some own value that `v` reaches. */
  ghost predicate Needs(vs: seq<Deps>, v: nat, x: nat) {
    exists u: nat :: u < |vs| && Reaches(vs, v, u) && x in vs[u].ins
  }

  ghost predicate WellFormed(vs: seq<Deps>, insCount: nat) {
    forall v :: 0 <= v < |vs| ==>
      && Distinct(vs[v].ins) && (forall i :: 0 <= i < |vs[v].ins| ==> vs[v].ins[i] < insCount)
      && (forall i :: 0 <= i < |vs[v].refs| ==> vs[v].refs[i] < |vs|)
  }

  lemma ReachesItself(vs: seq<Deps>, v: nat)
    requires v < |vs|
    ensures Reaches(vs, v, v)
  {
    assert IsPath(vs, [v]);
  }

  lemma ReachesStep(vs: seq<Deps>, v: nat, r: nat, u: nat)
    requires v < |vs| && r in vs[v].refs && Reaches(vs, r, u)
    ensures Reaches(vs, v, u)
  {
    var p :| IsPath(vs, p) && p[0] == r && p[|p| - 1] == u;
    var q := [v] + p;
    assert IsPath(vs, q) && q[0] == v && q[|q| - 1] == u;
  }

  /** The family `s` holds the direct inputs and is closed under reading. */
  ghost predicate IsClosed(vs: seq<Deps>, s: seq<set<nat>>) {
    && |s| == |vs|
    && (forall v, x :: 0 <= v < |vs| && x in vs[v].ins ==> x in s[v])
    && (forall v, r :: 0 <= v < |vs| && r in vs[v].refs && r < |vs| ==> s[r] <= s[v])
  }

  /** Every closed family contains what a value needs. */
  lemma {:induction false} ClosedContainsNeeds(vs: seq<Deps>, s: seq<set<nat>>, p: seq<nat>, x: nat)
    requires IsClosed(vs, s) && IsPath(vs, p) && x in vs[p[|p| - 1]].ins
    ensures x in s[p[0]]
    decreases |p|
  {
    if |p| > 1 {
      var q := p[1..];
      assert IsPath(vs, q) && q[|q| - 1] == p[|p| - 1];
      ClosedContainsNeeds(vs, s, q, x);
    }
  }

  ghost function NeedsSet(vs: seq<Deps>, insCount: nat, v: nat): set<nat> {
    set x | 0 <= x < insCount && Needs(vs, v, x)
  }

  ghost function NeedsSets(vs: seq<Deps>, insCount: nat): seq<set<nat>> {
    seq(|vs|, v requires 0 <= v < |vs| => NeedsSet(vs, insCount, v))
  }

  /** What the values need is the least family that holds the direct inputs and is
      closed under reading. */
  lemma NeedsIsLeastFixedPoint(vs: seq<Deps>, insCount: nat, s: seq<set<nat>>)
    requires WellFormed(vs, insCount)
    ensures IsClosed(vs, NeedsSets(vs, insCount))
    ensures IsClosed(vs, s) ==> forall v :: 0 <= v < |vs| ==> NeedsSet(vs, insCount, v) <= s[v]
  {
    var needs := NeedsSets(vs, insCount);
    forall v, x | 0 <= v < |vs| && x in vs[v].ins ensures x in needs[v] {
      ReachesItself(vs, v);
    }
    forall v, r | 0 <= v < |vs| && r in vs[v].refs && r < |vs| ensures needs[r] <= needs[v] {
      forall x | x in needs[r] ensures x in needs[v] {
        var u: nat :| u < |vs| && Reaches(vs, r, u) && x in vs[u].ins;
        ReachesStep(vs, v, r, u);
      }
    }
    if IsClosed(vs, s) {
      forall v, x | 0 <= v < |vs| && x in NeedsSet(vs, insCount, v) ensures x in s[v] {
        var u: nat :| u < |vs| && Reaches(vs, v, u) && x in vs[u].ins;
        var p :| IsPath(vs, p) && p[0] == v && p[|p| - 1] == u;
        ClosedContainsNeeds(vs, s, p, x);
      }
    }
  }

  // ----- close_inputs -----

  /** The entries still missing if every list became full. */
  ghost function Missing(vs: seq<Deps>, insCount: nat): int {
    if vs == [] then 0 else insCount - |vs[0].ins| + Missing(vs[1..], insCount)
  }

  lemma {:induction false} MissingUpdate(vs: seq<Deps>, insCount: nat, v: nat, d: Deps)
    requires v < |vs|
    ensures Missing(vs[v := d], insCount) == Missing(vs, insCount) + |vs[v].ins| - |d.ins|
  {
    if v == 0 {
      assert vs[v := d][1..] == vs[1..];
    } else {
      assert vs[v := d][1..] == vs[1..][v - 1 := d];
      MissingUpdate(vs[1..], insCount, v - 1, d);
    }
  }

  ghost predicate IsLists(vs: seq<Deps>, insCount: nat) {
    forall v :: 0 <= v < |vs| ==>
      Distinct(vs[v].ins) && forall i :: 0 <= i < |vs[v].ins| ==> vs[v].ins[i] < insCount
  }

  lemma {:induction false} MissingIsNatural(vs: seq<Deps>, insCount: nat)
    requires IsLists(vs, insCount)
    ensures Missing(vs, insCount) >= 0
  {
    if vs != [] {
      Pigeonhole(vs[0].ins, insCount);
      MissingIsNatural(vs[1..], insCount);
    }
  }

  /** Every list has grown from its first state, and only by inputs the value needs. */
  ghost predicate Grown(vs0: seq<Deps>, vs: seq<Deps>, insCount: nat) {
    && |vs| == |vs0| && WellFormed(vs, insCount)
    && forall v :: 0 <= v < |vs| ==>
      && vs[v].refs == vs0[v].refs && vs0[v].ins <= vs[v].ins
      && forall x :: x in vs[v].ins ==> Needs(vs0, v, x)
  }

  /** Whether the inputs of the first `i` values read by `v` are inputs of `v`. */
  ghost predicate Holds(vs: seq<Deps>, v: nat, i: nat)
    requires v < |vs| && i <= |vs[v].refs|
  {
    forall k, x :: 0 <= k < i && vs[v].refs[k] < |vs| && x in vs[vs[v].refs[k]].ins ==> x in vs[v].ins
  }

  function AddTo(vs: seq<Deps>, v: nat, x: nat): seq<Deps>
    requires v < |vs|
  {
    vs[v := vs[v].(ins := AddIndexSpec(vs[v].ins, x))]
  }

  lemma AddStep(vs0: seq<Deps>, vs: seq<Deps>, insCount: nat, v: nat, r: nat, x: nat)
    requires Grown(vs0, vs, insCount) && v < |vs| && r < |vs| && r in vs0[v].refs && x in vs[r].ins
    ensures Grown(vs0, AddTo(vs, v, x), insCount)
    ensures Missing(AddTo(vs, v, x), insCount) == Missing(vs, insCount) - if x in vs[v].ins then 0 else 1
  {
    AddKeepsGrown(vs0, vs, insCount, v, r, x);
    MissingUpdate(vs, insCount, v, vs[v].(ins := AddIndexSpec(vs[v].ins, x)));
  }

  lemma AddKeepsGrown(vs0: seq<Deps>, vs: seq<Deps>, insCount: nat, v: nat, r: nat, x: nat)
    requires Grown(vs0, vs, insCount) && v < |vs| && r < |vs| && r in vs0[v].refs && x in vs[r].ins
    ensures Grown(vs0, AddTo(vs, v, x), insCount)
  {
    NeedsStep(vs0, v, r, x);
    var list := AddIndexSpec(vs[v].ins, x);
    assert forall y :: y in list ==> y in vs[v].ins || y == x;
    assert x < insCount;
  }

  lemma NeedsStep(vs: seq<Deps>, v: nat, r: nat, x: nat)
    requires v < |vs| && r in vs[v].refs && Needs(vs, r, x)
    ensures Needs(vs, v, x)
  {
    var u: nat :| u < |vs| && Reaches(vs, r, u) && x in vs[u].ins;
    ReachesStep(vs, v, r, u);
  }

  /** Progress of a pass: nothing has changed yet, or fewer entries are missing. */
  ghost predicate Progress(start: seq<Deps>, vs: seq<Deps>, insCount: nat, changed: bool) {
    if changed then Missing(vs, insCount) < Missing(start, insCount) else vs == start
  }

  lemma ProgressAdds(start: seq<Deps>, vs: seq<Deps>, vs': seq<Deps>, insCount: nat, c: bool, c': bool)
    requires Progress(start, vs, insCount, c) && Progress(vs, vs', insCount, c')
    ensures Progress(start, vs', insCount, c || c')
  {
  }

  method AddInput(values: array<Deps>, v: nat, ghost r: nat, x: nat, ghost vs0: seq<Deps>, ghost insCount: nat)
    returns (changed: bool)
    requires v < values.Length && r < values.Length && Grown(vs0, values[..], insCount)
    requires r in vs0[v].refs && x in values[r].ins
    modifies values
    ensures Grown(vs0, values[..], insCount) && Progress(old(values[..]), values[..], insCount, changed)
    ensures x in values[v].ins && forall y :: y in old(values[v].ins) ==> y in values[v].ins
    ensures values[r].ins == old(values[r].ins)
  {
    ghost var vs := values[..];
    AddStep(vs0, vs, insCount, v, r, x);
    var list := AddIndex(values[v].ins, x);
    changed := list != values[v].ins;
    values[v] := values[v].(ins := list);
    assert values[..] == AddTo(vs, v, x);
  }

  /** The first `j` entries of one list are in another one. */
  ghost predicate FirstIn(given: seq<nat>, j: nat, list: seq<nat>)
    requires j <= |given|
  {
    forall k :: 0 <= k < j ==> given[k] in list
  }

  lemma FirstInNext(given: seq<nat>, j: nat, list: seq<nat>, list': seq<nat>)
    requires j < |given| && FirstIn(given, j, list) && given[j] in list'
    requires forall y :: y in list ==> y in list'
    ensures FirstIn(given, j + 1, list')
  {
  }

  /** The innermost loop: the inputs of `r` become inputs of `v`. */
  method AddInputs(values: array<Deps>, v: nat, r: nat, ghost vs0: seq<Deps>, ghost insCount: nat) returns (changed: bool)
    requires v < values.Length && r < values.Length
    requires Grown(vs0, values[..], insCount) && r in vs0[v].refs
    modifies values
    ensures Grown(vs0, values[..], insCount) && Progress(old(values[..]), values[..], insCount, changed)
    ensures forall x :: x in old(values[r].ins) ==> x in values[v].ins
  {
    changed := false;
    ghost var start, given := values[..], values[r].ins;
    var j := 0;
    while j < |values[r].ins|
      invariant values[r].ins == given && j <= |given|
      invariant Grown(vs0, values[..], insCount) && Progress(start, values[..], insCount, changed)
      invariant FirstIn(given, j, values[v].ins)
    {
      ghost var before := values[..];
      var c := AddInput(values, v, r, values[r].ins[j], vs0, insCount);
      ProgressAdds(start, before, values[..], insCount, changed, c);
      FirstInNext(given, j, before[v].ins, values[v].ins);
      changed := changed || c;
      j := j + 1;
    }
  }

  lemma HoldsNext(vs: seq<Deps>, v: nat, i: nat)
    requires v < |vs| && i < |vs[v].refs| && vs[v].refs[i] < |vs| && Holds(vs, v, i)
    requires forall x :: x in vs[vs[v].refs[i]].ins ==> x in vs[v].ins
    ensures Holds(vs, v, i + 1)
  {
  }

  /** The loop over the values `v` reads. */
  method AddRefs(values: array<Deps>, v: nat, ghost vs0: seq<Deps>, ghost insCount: nat) returns (changed: bool)
    requires v < values.Length && Grown(vs0, values[..], insCount)
    modifies values
    ensures Grown(vs0, values[..], insCount) && Progress(old(values[..]), values[..], insCount, changed)
    ensures !changed ==> Holds(values[..], v, |values[v].refs|)
  {
    changed := false;
    ghost var start := values[..];
    for i := 0 to |values[v].refs|
      invariant Grown(vs0, values[..], insCount) && Progress(start, values[..], insCount, changed)
      invariant !changed ==> Holds(start, v, i)
    {
      ghost var before := values[..];
      var c := AddInputs(values, v, values[v].refs[i], vs0, insCount);
      ProgressAdds(start, before, values[..], insCount, changed, c);
      if !changed && !c {
        HoldsNext(start, v, i);
      }
      changed := changed || c;
    }
  }

  /** One pass over all values. */
  method ClosePass(values: array<Deps>, ghost vs0: seq<Deps>, ghost insCount: nat) returns (changed: bool)
    requires Grown(vs0, values[..], insCount)
    modifies values
    ensures Grown(vs0, values[..], insCount) && Progress(old(values[..]), values[..], insCount, changed)
    ensures !changed ==> forall v :: 0 <= v < values.Length ==> Holds(values[..], v, |values[v].refs|)
  {
    changed := false;
    ghost var start := values[..];
    for v := 0 to values.Length
      invariant Grown(vs0, values[..], insCount) && Progress(start, values[..], insCount, changed)
      invariant !changed ==> forall w :: 0 <= w < v ==> Holds(start, w, |start[w].refs|)
    {
      var c := AddRefs(values, v, vs0, insCount);
      changed := changed || c;
    }
  }

  /** close_inputs: afterwards every list holds, without duplicates, exactly the
      outside values read directly by some own value reachable through refs. */
  method CloseInputs(values: array<Deps>, insCount: nat)
    requires WellFormed(values[..], insCount)
    modifies values
    ensures Grown(old(values[..]), values[..], insCount)
    ensures forall v, x :: 0 <= v < values.Length ==> (x in values[v].ins <==> Needs(old(values[..]), v, x))
  {
    ghost var vs0 := values[..];
    GrownFromStart(vs0, insCount);
    var changed := true;
    MissingIsNatural(values[..], insCount);
    while changed
      invariant Grown(vs0, values[..], insCount) && Missing(values[..], insCount) >= 0
      invariant !changed ==> forall v :: 0 <= v < values.Length ==> Holds(values[..], v, |values[v].refs|)
      decreases Missing(values[..], insCount), changed
    {
      changed := ClosePass(values, vs0, insCount);
      MissingIsNatural(values[..], insCount);
    }
    ClosedListsAreNeeds(vs0, values[..], insCount);
  }

  lemma GrownFromStart(vs0: seq<Deps>, insCount: nat)
    requires WellFormed(vs0, insCount)
    ensures Grown(vs0, vs0, insCount)
  {
    forall v, x | 0 <= v < |vs0| && x in vs0[v].ins ensures Needs(vs0, v, x) {
      ReachesItself(vs0, v);
    }
  }

  lemma ClosedListsAreNeeds(vs0: seq<Deps>, vs: seq<Deps>, insCount: nat)
    requires Grown(vs0, vs, insCount)
    requires forall v :: 0 <= v < |vs| ==> Holds(vs, v, |vs[v].refs|)
    ensures forall v, x :: 0 <= v < |vs| ==> (x in vs[v].ins <==> Needs(vs0, v, x))
  {
    forall v, x | 0 <= v < |vs0| && Needs(vs0, v, x) ensures x in vs[v].ins {
      ClosedListsHoldNeeds(vs0, vs, v, x);
    }
  }

  lemma ClosedListsHoldNeeds(vs0: seq<Deps>, vs: seq<Deps>, v: nat, x: nat)
    requires |vs| == |vs0| && v < |vs| && Needs(vs0, v, x)
    requires forall w :: 0 <= w < |vs| ==> vs[w].refs == vs0[w].refs && vs0[w].ins <= vs[w].ins
    requires forall w :: 0 <= w < |vs| ==> Holds(vs, w, |vs[w].refs|)
    ensures x in vs[v].ins
  {
    var s := seq(|vs|, w requires 0 <= w < |vs| => set y | y in vs[w].ins);
    assert IsClosed(vs0, s);
    var u: nat :| u < |vs0| && Reaches(vs0, v, u) && x in vs0[u].ins;
    var p :| IsPath(vs0, p) && p[0] == v && p[|p| - 1] == u;
    ClosedContainsNeeds(vs0, s, p, x);
  }
}
