/** The eval worker among the threads that dispatch its triggers: no trigger is
    lost, and every cascade of evals ends. */
module EvalWorker {
  import opened EvalDeps
  import opened EvalCycles

  /** The evals, which of them are periodic, and the outside values each one reads. */
  datatype Config = Config(evals: seq<EvalCfg>, periodic: seq<bool>, ins: seq<seq<nat>>, names: nat)

  ghost predicate IsConfig(c: Config) {
    && |c.periodic| == |c.ins| == |c.evals| && SingleProducer(c.evals)
    && (forall e :: 0 <= e < |c.evals| ==>
          && (c.periodic[e] ==> c.evals[e].triggers == [])
          && (forall k :: 0 <= k < |c.evals[e].published| ==> c.evals[e].published[k] < c.names)
          && (forall k :: 0 <= k < |c.ins[e]| ==> c.ins[e][k] < c.names))
  }

  /** No eval publishes the name: other threads dispatch it. */
  ghost predicate Outside(c: Config, d: nat) {
    forall e :: 0 <= e < |c.evals| ==> d !in c.evals[e].published
  }

  /** The evals whose callbacks a name fires, in config order. */
  function Callbacks(evals: seq<EvalCfg>, d: nat, n: nat): seq<nat>
    requires n <= |evals|
  {
    if n == 0 then []
    else Callbacks(evals, d, n - 1) + if d in evals[n - 1].triggers then [n - 1] else []
  }

  lemma {:induction false} CallbacksAreTriggered(evals: seq<EvalCfg>, d: nat, n: nat)
    requires n <= |evals|
    ensures forall e :: e in Callbacks(evals, d, n) <==> 0 <= e < n && d in evals[e].triggers
  {
    if n > 0 {
      CallbacksAreTriggered(evals, d, n - 1);
    }
  }

  lemma CallbackExists(c: Config, d: nat, i: nat)
    requires i < |CallbacksOf(c, d)|
    ensures CallbacksOf(c, d)[i] < |c.evals| && d in c.evals[CallbacksOf(c, d)[i]].triggers
  {
    CallbacksAreTriggered(c.evals, d, |c.evals|);
    assert CallbacksOf(c, d)[i] in CallbacksOf(c, d);
  }

  function CallbacksOf(c: Config, d: nat): seq<nat> {
    Callbacks(c.evals, d, |c.evals|)
  }

  /** Where the worker is.  It holds the module lock while it scans. */
  datatype Worker =
    | Scanning(idx: nat, evaluated: bool)
    | Reading(eval: nat, next: nat)
    | Publishing(eval: nat, next: nat, dispatching: bool)
    | Waiting(signalled: bool)

  /** `store[d]` counts the times name `d` was stored; `firing[d]` is the next
      callback of its dispatch, -1 if its dispatch lock is free; `lastRead[e][k]`
      is the store that eval `e` read last from its k-th outside value. */
  datatype State = State(
    store: seq<nat>, firing: seq<int>, pending: seq<bool>, lastRead: seq<seq<nat>>, worker: Worker
  )

  datatype Action =
    | Begin(d: nat)      // another thread locks the name and stores a value
    | Fire(d: nat)       // the next callback of a dispatch runs
    | End(d: nat)        // another thread unlocks the name
    | Scan(due: bool)    // the worker looks at the next eval; `due` is for periodic ones
    | ScanEnd            // after the last eval: scan again or wait
    | Read               // the worker refreshes an outside value, or has refreshed all
    | Publish            // the worker locks the next name and stores, or has published all
    | Published          // the worker unlocks the name
    | Wake               // signal, timeout or spurious wakeup

  ghost predicate Shaped(c: Config, s: State)
    requires IsConfig(c)
  {
    && |s.store| == |s.firing| == c.names && |s.pending| == |s.lastRead| == |c.evals|
    && (forall d :: 0 <= d < c.names ==> -1 <= s.firing[d] <= |CallbacksOf(c, d)|)
    && (forall e :: 0 <= e < |c.evals| ==> |s.lastRead[e]| == |c.ins[e]|)
    && match s.worker
       case Scanning(idx, _) => idx <= |c.evals|
       case Reading(e, k) => e < |c.evals| && k <= |c.ins[e]|
       case Publishing(e, k, on) =>
         && e < |c.evals| && k <= |c.evals[e].published|
         && (on ==> k < |c.evals[e].published| && s.firing[c.evals[e].published[k]] >= 0)
       case Waiting(_) => true
  }

  /** Names published by evals are dispatched by the worker only. */
  ghost predicate OnlyWorkerPublishes(c: Config, s: State)
    requires IsConfig(c) && Shaped(c, s)
  {
    forall d :: 0 <= d < c.names && s.firing[d] >= 0 && !Outside(c, d) ==>
      s.worker.Publishing? && s.worker.dispatching && d == c.evals[s.worker.eval].published[s.worker.next]
  }

  ghost predicate Enabled(c: Config, s: State, a: Action)
    requires IsConfig(c) && Shaped(c, s)
  {
    match a
    case Begin(d) => d < c.names && Outside(c, d) && s.firing[d] == -1
    case Fire(d) => d < c.names && 0 <= s.firing[d] < |CallbacksOf(c, d)| && !s.worker.Scanning?
    case End(d) => d < c.names && Outside(c, d) && s.firing[d] == |CallbacksOf(c, d)|
    case Scan(_) => s.worker.Scanning? && s.worker.idx < |c.evals|
    case ScanEnd => s.worker.Scanning? && s.worker.idx == |c.evals|
    case Read => s.worker.Reading?
    case Publish =>
      && s.worker.Publishing? && !s.worker.dispatching
      && var names := c.evals[s.worker.eval].published;
         s.worker.next < |names| ==> s.firing[names[s.worker.next]] == -1
    case Published =>
      && s.worker.Publishing? && s.worker.dispatching
      && var d := c.evals[s.worker.eval].published[s.worker.next];
         s.firing[d] == |CallbacksOf(c, d)|
    case Wake => s.worker.Waiting?
  }

  /** trigger_update: mark the eval and signal the worker. */
  ghost function Trigger(c: Config, s: State, e: nat): State
    requires e < |s.pending|
  {
    s.(pending := s.pending[e := true], worker := if s.worker.Waiting? then Waiting(true) else s.worker)
  }

  /** The worker starts to evaluate the eval it scans. */
  ghost predicate Starts(c: Config, s: State, a: Action)
    requires IsConfig(c) && Shaped(c, s) && Enabled(c, s, a)
  {
    a.Scan? && if c.periodic[s.worker.idx] then a.due else s.pending[s.worker.idx]
  }

  ghost function Do(c: Config, s: State, a: Action): State
    requires IsConfig(c) && Shaped(c, s) && Enabled(c, s, a)
  {
    var w := s.worker;
    match a
    case Begin(d) => s.(store := s.store[d := s.store[d] + 1], firing := s.firing[d := 0])
    case Fire(d) =>
      CallbackExists(c, d, s.firing[d]);
      Trigger(c, s, CallbacksOf(c, d)[s.firing[d]]).(firing := s.firing[d := s.firing[d] + 1])
    case End(d) => s.(firing := s.firing[d := -1])
    case Scan(_) =>
      if !Starts(c, s, a) then s.(worker := Scanning(w.idx + 1, w.evaluated))
      else if c.periodic[w.idx] then s.(worker := Reading(w.idx, 0))
      else s.(pending := s.pending[w.idx := false], worker := Reading(w.idx, 0))
    case ScanEnd => s.(worker := if w.evaluated then Scanning(0, false) else Waiting(false))
    case Read =>
      if w.next < |c.ins[w.eval]|
      then s.(lastRead := s.lastRead[w.eval := s.lastRead[w.eval][w.next := s.store[c.ins[w.eval][w.next]]]],
              worker := Reading(w.eval, w.next + 1))
      else s.(worker := Publishing(w.eval, 0, false))
    case Publish =>
      if w.next < |c.evals[w.eval].published|
      then
        var d := c.evals[w.eval].published[w.next];
        s.(store := s.store[d := s.store[d] + 1], firing := s.firing[d := 0],
           worker := Publishing(w.eval, w.next, true))
      else s.(worker := Scanning(w.eval + 1, true))
    case Published =>
      var d := c.evals[w.eval].published[w.next];
      s.(firing := s.firing[d := -1], worker := Publishing(w.eval, w.next + 1, false))
    case Wake => s.(worker := Scanning(0, false))
  }

  /** eval_startup: all evals are pending.  Other threads may be dispatching already. */
  ghost predicate Init(c: Config, s: State) {
    && IsConfig(c) && Shaped(c, s) && OnlyWorkerPublishes(c, s) && s.worker == Scanning(0, false)
    && forall e :: 0 <= e < |c.evals| ==> s.pending[e]
  }

  // ----- No lost trigger -----

  /** A dispatch of the name still has to fire the callback of eval `e`. */
  ghost predicate StillFires(c: Config, s: State, d: nat, e: nat)
    requires IsConfig(c) && Shaped(c, s) && d < c.names
  {
    s.firing[d] >= 0 && e in CallbacksOf(c, d)[s.firing[d]..]
  }

  /** Eval `e` has read the stored value of its k-th outside value, or will. */
  ghost predicate NotLost(c: Config, s: State, e: nat, k: nat)
    requires IsConfig(c) && Shaped(c, s) && e < |c.evals| && k < |c.ins[e]|
  {
    || s.lastRead[e][k] == s.store[c.ins[e][k]]
    || s.pending[e]
    || (s.worker.Reading? && s.worker.eval == e && s.worker.next <= k)
    || StillFires(c, s, c.ins[e][k], e)
  }

  ghost predicate NoLostTrigger(c: Config, s: State)
    requires IsConfig(c) && Shaped(c, s)
  {
    forall e, k :: 0 <= e < |c.evals| && 0 <= k < |c.ins[e]| && c.ins[e][k] in c.evals[e].triggers ==> NotLost(c, s, e, k)
  }

  /** A triggered eval before `n` is not pending. */
  ghost predicate NonePending(c: Config, s: State, n: nat)
    requires IsConfig(c) && Shaped(c, s) && n <= |c.evals|
  {
    forall e :: 0 <= e < n && !c.periodic[e] ==> !s.pending[e]
  }

  ghost predicate Inv(c: Config, s: State) {
    && IsConfig(c) && Shaped(c, s) && OnlyWorkerPublishes(c, s) && NoLostTrigger(c, s)
    && (s.worker.Scanning? && !s.worker.evaluated ==> NonePending(c, s, s.worker.idx))
    && (s.worker == Waiting(false) ==> NonePending(c, s, |c.evals|))
  }

  lemma StepShaped(c: Config, s: State, a: Action)
    requires Inv(c, s) && Enabled(c, s, a)
    ensures Shaped(c, Do(c, s, a)) && OnlyWorkerPublishes(c, Do(c, s, a))
  {
    match a
    case Fire(d) => FireShaped(c, s, d);
    case Publish => PublishShaped(c, s);
    case Published => PublishedShaped(c, s);
    case _ =>
  }

  lemma PublishShaped(c: Config, s: State)
    requires Inv(c, s) && Enabled(c, s, Publish)
    ensures Shaped(c, Do(c, s, Publish)) && OnlyWorkerPublishes(c, Do(c, s, Publish))
  {
    assert Shaped(c, Do(c, s, Publish));
  }

  lemma PublishedShaped(c: Config, s: State)
    requires Inv(c, s) && Enabled(c, s, Published)
    ensures Shaped(c, Do(c, s, Published)) && OnlyWorkerPublishes(c, Do(c, s, Published))
  {
    assert Shaped(c, Do(c, s, Published));
  }

  lemma FireShaped(c: Config, s: State, d: nat)
    requires Inv(c, s) && Enabled(c, s, Fire(d))
    ensures Shaped(c, Do(c, s, Fire(d))) && OnlyWorkerPublishes(c, Do(c, s, Fire(d)))
  {
    CallbackExists(c, d, s.firing[d]);
  }

  lemma FireNotLost(c: Config, s: State, b: nat, e: nat, k: nat)
    requires Inv(c, s) && Enabled(c, s, Fire(b)) && Shaped(c, Do(c, s, Fire(b)))
    requires e < |c.evals| && k < |c.ins[e]| && c.ins[e][k] in c.evals[e].triggers
    ensures NotLost(c, Do(c, s, Fire(b)), e, k)
  {
    var s', d := Do(c, s, Fire(b)), c.ins[e][k];
    assert NotLost(c, s, e, k);
    CallbackExists(c, b, s.firing[b]);
    if b == d && StillFires(c, s, d, e) && CallbacksOf(c, d)[s.firing[d]] != e {
      assert StillFires(c, s', d, e);
    }
  }

  /** What a step does for the k-th outside value of eval `e`. */
  lemma StepNotLost(c: Config, s: State, a: Action, e: nat, k: nat)
    requires Inv(c, s) && Enabled(c, s, a) && Shaped(c, Do(c, s, a))
    requires e < |c.evals| && k < |c.ins[e]| && c.ins[e][k] in c.evals[e].triggers
    ensures NotLost(c, Do(c, s, a), e, k)
  {
    var s', d := Do(c, s, a), c.ins[e][k];
    assert NotLost(c, s, e, k);
    CallbacksAreTriggered(c.evals, d, |c.evals|);
    match a
    case Begin(b) =>
      if b == d {
        assert StillFires(c, s', d, e);
      }
    case Fire(b) => FireNotLost(c, s, b, e, k);
    case End(b) =>
      if b == d {
        assert !StillFires(c, s, d, e);
      }
    case Publish =>
      if s'.worker.Publishing? && c.evals[s.worker.eval].published[s.worker.next] == d {
        assert StillFires(c, s', d, e);
      }
    case Published =>
      if c.evals[s.worker.eval].published[s.worker.next] == d {
        assert !StillFires(c, s, d, e);
      }
    case _ =>
  }

  lemma StepInv(c: Config, s: State, a: Action)
    requires Inv(c, s) && Enabled(c, s, a)
    ensures Inv(c, Do(c, s, a))
  {
    StepShaped(c, s, a);
    var s' := Do(c, s, a);
    forall e, k | 0 <= e < |c.evals| && 0 <= k < |c.ins[e]| && c.ins[e][k] in c.evals[e].triggers
      ensures NotLost(c, s', e, k)
    {
      StepNotLost(c, s, a, e, k);
    }
  }

  /** A part of an interleaving of the worker and the dispatching threads. */
  ghost predicate IsTrace(c: Config, run: seq<State>, steps: seq<Action>) {
    && |run| == |steps| + 1 && Inv(c, run[0])
    && (forall i :: 0 <= i < |run| ==> Shaped(c, run[i]))
    && (forall i :: 0 <= i < |steps| ==> Enabled(c, run[i], steps[i]) && run[i + 1] == Do(c, run[i], steps[i]))
  }

  lemma {:induction false} TraceInv(c: Config, run: seq<State>, steps: seq<Action>, n: nat)
    requires IsTrace(c, run, steps) && n < |run|
    ensures Inv(c, run[n])
  {
    if n > 0 {
      TraceInv(c, run, steps, n - 1);
      StepInv(c, run[n - 1], steps[n - 1]);
    }
  }

  /** An interleaving from the start on. */
  ghost predicate IsRun(c: Config, run: seq<State>, steps: seq<Action>) {
    && |run| == |steps| + 1 && Init(c, run[0])
    && (forall i :: 0 <= i < |run| ==> Shaped(c, run[i]))
    && (forall i :: 0 <= i < |steps| ==> Enabled(c, run[i], steps[i]) && run[i + 1] == Do(c, run[i], steps[i]))
  }

  /** In every interleaving: no trigger is lost, and the worker waits for a signal
      only while no triggered eval is pending. */
  lemma {:induction false} RunKeepsTriggers(c: Config, run: seq<State>, steps: seq<Action>, n: nat)
    requires IsRun(c, run, steps) && n < |run|
    ensures Inv(c, run[n])
    ensures run[n].worker == Waiting(false) ==> NonePending(c, run[n], |c.evals|)
  {
    assert Inv(c, run[0]);
    TraceInv(c, run, steps, n);
  }

  /** The part of a run from step `m` up to step `n`. */
  lemma {:induction false} PartOfRun(c: Config, run: seq<State>, steps: seq<Action>, m: nat, n: nat)
    requires IsRun(c, run, steps) && m <= n <= |steps|
    ensures IsTrace(c, run[m..n + 1], steps[m..n])
  {
    RunKeepsTriggers(c, run, steps, m);
    var part, acts := run[m..n + 1], steps[m..n];
    forall i | 0 <= i < |acts| ensures Enabled(c, part[i], acts[i]) && part[i + 1] == Do(c, part[i], acts[i]) {
      assert part[i] == run[m + i] && acts[i] == steps[m + i] && part[i + 1] == run[m + i + 1];
    }
  }

  /** When the worker sleeps and no dispatch is under way, every triggered eval has
      read the last store of every trigger it reads. */
  lemma QuietIsUpToDate(c: Config, s: State, e: nat, k: nat)
    requires Inv(c, s) && s.worker == Waiting(false) && forall d :: 0 <= d < c.names ==> s.firing[d] == -1
    requires e < |c.evals| && k < |c.ins[e]| && c.ins[e][k] in c.evals[e].triggers
    ensures s.lastRead[e][k] == s.store[c.ins[e][k]]
  {
    assert NotLost(c, s, e, k);
  }

  // ----- An evaluation publishes -----

  /** From step `m` to step `n` the worker publishes the values of eval `e`. */
  ghost predicate IsPublication(c: Config, run: seq<State>, steps: seq<Action>, m: nat, n: nat, e: nat) {
    && IsRun(c, run, steps) && m < n < |run| && e < |c.evals| && run[m].worker == Publishing(e, 0, false)
    && (forall t :: m <= t < n ==> run[t].worker.Publishing? && run[t].worker.eval == e)
  }

  lemma PublishedIsNotOutside(c: Config, e: nat, j: nat)
    requires IsConfig(c) && e < |c.evals| && j < |c.evals[e].published|
    ensures !Outside(c, c.evals[e].published[j])
  {
  }

  /** How many of the names the worker has stored. */
  function StoredCount(names: seq<nat>, w: Worker): nat {
    if !w.Publishing? || w.next >= |names| then |names| else w.next + if w.dispatching then 1 else 0
  }

  /** How often `d` is among the first `k` names. */
  function Times(names: seq<nat>, k: nat, d: nat): nat
    requires k <= |names|
  {
    if k == 0 then 0 else Times(names, k - 1, d) + if names[k - 1] == d then 1 else 0
  }

  lemma {:induction false} TimesIsMultiplicity(names: seq<nat>, k: nat, d: nat)
    requires k <= |names|
    ensures Times(names, k, d) == multiset(names[..k])[d]
  {
    if k > 0 {
      TimesIsMultiplicity(names, k - 1, d);
      assert names[..k] == names[..k - 1] + [names[k - 1]];
    }
  }

  /** The stores of a name that eval `e` does not make in its publication. */
  ghost function OtherStores(c: Config, s: State, e: nat, d: nat): int
    requires e < |c.evals| && d < |s.store|
  {
    s.store[d] - Times(c.evals[e].published, StoredCount(c.evals[e].published, s.worker), d)
  }

  lemma StoreStep(c: Config, s: State, a: Action, d: nat)
    requires IsConfig(c) && Shaped(c, s) && Enabled(c, s, a) && s.worker.Publishing? && d < c.names && !Outside(c, d)
    ensures |Do(c, s, a).store| == |s.store|
    ensures OtherStores(c, Do(c, s, a), s.worker.eval, d) == OtherStores(c, s, s.worker.eval, d)
  {
  }

  lemma PublicationStep(c: Config, run: seq<State>, steps: seq<Action>, m: nat, n: nat, e: nat, t: nat)
    requires IsPublication(c, run, steps, m, n, e) && m <= t < n
    ensures IsConfig(c) && Shaped(c, run[t]) && Shaped(c, run[t + 1]) && Enabled(c, run[t], steps[t])
    ensures run[t + 1] == Do(c, run[t], steps[t]) && run[t].worker.Publishing? && run[t].worker.eval == e
  {
  }

  ghost predicate HasOtherStores(c: Config, s: State, e: nat, d: nat, count: int) {
    e < |c.evals| && d < |s.store| && OtherStores(c, s, e, d) == count
  }

  lemma RunStoreStep(
    c: Config, run: seq<State>, steps: seq<Action>, m: nat, n: nat, e: nat, t: nat, d: nat, count: int
  )
    requires IsPublication(c, run, steps, m, n, e) && m < t <= n && d < c.names && !Outside(c, d)
    requires HasOtherStores(c, run[t - 1], e, d, count)
    ensures HasOtherStores(c, run[t], e, d, count)
  {
    PublicationStep(c, run, steps, m, n, e, t - 1);
    StoreStep(c, run[t - 1], steps[t - 1], d);
  }

  lemma {:induction false} NoOtherStores(
    c: Config, run: seq<State>, steps: seq<Action>, m: nat, n: nat, e: nat, t: nat, d: nat, count: int
  )
    requires IsPublication(c, run, steps, m, n, e) && m <= t <= n && d < c.names && !Outside(c, d)
    requires HasOtherStores(c, run[m], e, d, count)
    ensures HasOtherStores(c, run[t], e, d, count)
    decreases t
  {
    if t > m {
      NoOtherStores(c, run, steps, m, n, e, t - 1, d, count);
      RunStoreStep(c, run, steps, m, n, e, t, d, count);
    }
  }

  /** The `i`-th callback of the `j`-th name is called by step `u`. */
  ghost predicate CallsBack(c: Config, run: seq<State>, steps: seq<Action>, e: nat, j: nat, i: nat, u: nat)
    requires e < |c.evals| && j < |c.evals[e].published|
  {
    var d := c.evals[e].published[j];
    u < |steps| && u < |run| && d < |run[u].firing| && steps[u] == Fire(d) && run[u].firing[d] == i
  }

  /** The `i`-th callback of the `j`-th name has been called in the publication. */
  ghost predicate HasCalled(c: Config, s: State, e: nat, j: nat, i: nat)
    requires IsConfig(c) && Shaped(c, s) && e < |c.evals| && j < |c.evals[e].published|
  {
    var w := s.worker;
    w.Publishing? ==> j < w.next || (j == w.next && w.dispatching && i < s.firing[c.evals[e].published[j]])
  }

  lemma HasCalledStep(c: Config, s: State, a: Action, e: nat, j: nat, i: nat)
    requires IsConfig(c) && Shaped(c, s) && Enabled(c, s, a) && s.worker.Publishing? && s.worker.eval == e
    requires e < |c.evals| && j < |c.evals[e].published| && i < |CallbacksOf(c, c.evals[e].published[j])|
    requires Shaped(c, Do(c, s, a)) && HasCalled(c, Do(c, s, a), e, j, i)
    ensures HasCalled(c, s, e, j, i) || (a == Fire(c.evals[e].published[j]) && s.firing[c.evals[e].published[j]] == i)
  {
    PublishedIsNotOutside(c, e, j);
  }

  lemma RunHasCalledStep(
    c: Config, run: seq<State>, steps: seq<Action>, m: nat, n: nat, e: nat, t: nat, j: nat, i: nat
  )
    requires IsPublication(c, run, steps, m, n, e) && m <= t < n
    requires j < |c.evals[e].published| && i < |CallbacksOf(c, c.evals[e].published[j])|
    requires HasCalled(c, run[t + 1], e, j, i)
    ensures HasCalled(c, run[t], e, j, i) || CallsBack(c, run, steps, e, j, i, t)
  {
    PublicationStep(c, run, steps, m, n, e, t);
    HasCalledStep(c, run[t], steps[t], e, j, i);
  }

  /** What is false first and true later becomes true in some step. */
  lemma {:induction false} BecomesTrue(flags: seq<bool>, m: nat, t: nat) returns (u: nat)
    requires m < t < |flags| && !flags[m] && flags[t]
    ensures m <= u < t && !flags[u] && flags[u + 1]
    decreases t
  {
    if flags[t - 1] {
      u := BecomesTrue(flags, m, t - 1);
    } else {
      u := t - 1;
    }
  }

  lemma {:induction false} CallsBackOnce(
    c: Config, run: seq<State>, steps: seq<Action>, m: nat, n: nat, e: nat, j: nat, i: nat
  ) returns (u: nat)
    requires IsPublication(c, run, steps, m, n, e) && !run[n].worker.Publishing?
    requires j < |c.evals[e].published| && i < |CallbacksOf(c, c.evals[e].published[j])|
    ensures m <= u < n && CallsBack(c, run, steps, e, j, i, u)
  {
    var called := seq(|run|, t requires 0 <= t < |run| => Shaped(c, run[t]) && HasCalled(c, run[t], e, j, i));
    u := BecomesTrue(called, m, n);
    RunHasCalledStep(c, run, steps, m, n, e, u, j, i);
  }

  /** Between its readings and the next scan an evaluation stores the names it publishes
      as often as it lists them, nobody else stores a name of an eval, and every eval that
      such a name triggers is marked pending by one of its callbacks. */
  lemma {:induction false} EvaluationPublishes(c: Config, run: seq<State>, steps: seq<Action>, m: nat, n: nat, e: nat)
    requires IsPublication(c, run, steps, m, n, e) && !run[n].worker.Publishing?
    ensures run[n].worker == Scanning(e + 1, true)
    ensures forall d :: 0 <= d < c.names && !Outside(c, d) ==>
      run[n].store[d] == run[m].store[d] + multiset(c.evals[e].published)[d]
    ensures forall j, f ::
      0 <= j < |c.evals[e].published| && 0 <= f < |c.evals| && c.evals[e].published[j] in c.evals[f].triggers ==>
        exists u :: m <= u < n && steps[u] == Fire(c.evals[e].published[j]) && run[u + 1].pending[f]
  {
    assert Enabled(c, run[n - 1], steps[n - 1]) && run[n] == Do(c, run[n - 1], steps[n - 1]);
    forall d | 0 <= d < c.names && !Outside(c, d)
      ensures run[n].store[d] == run[m].store[d] + multiset(c.evals[e].published)[d]
    {
      NoOtherStores(c, run, steps, m, n, e, n, d, run[m].store[d]);
      TimesIsMultiplicity(c.evals[e].published, |c.evals[e].published|, d);
      assert c.evals[e].published[..|c.evals[e].published|] == c.evals[e].published;
    }
    forall j, f | 0 <= j < |c.evals[e].published| && 0 <= f < |c.evals| && c.evals[e].published[j] in c.evals[f].triggers
      ensures exists u :: m <= u < n && steps[u] == Fire(c.evals[e].published[j]) && run[u + 1].pending[f]
    {
      var u := TriggersPending(c, run, steps, m, n, e, j, f);
    }
  }

  lemma {:induction false} TriggersPending(
    c: Config, run: seq<State>, steps: seq<Action>, m: nat, n: nat, e: nat, j: nat, f: nat
  ) returns (u: nat)
    requires IsPublication(c, run, steps, m, n, e) && !run[n].worker.Publishing? && j < |c.evals[e].published|
    requires f < |c.evals| && c.evals[e].published[j] in c.evals[f].triggers
    ensures m <= u < n && steps[u] == Fire(c.evals[e].published[j]) && run[u + 1].pending[f]
  {
    var d := c.evals[e].published[j];
    CallbacksAreTriggered(c.evals, d, |c.evals|);
    assert f in CallbacksOf(c, d);
    var i: nat :| i < |CallbacksOf(c, d)| && CallbacksOf(c, d)[i] == f;
    u := CallsBackOnce(c, run, steps, m, n, e, j, i);
    assert Enabled(c, run[u], steps[u]) && run[u + 1] == Do(c, run[u], steps[u]);
  }

  // ----- Cascades end -----

  function Pow2(n: nat): nat {
    if n == 0 then 1 else 2 * Pow2(n - 1)
  }

  /** A set of evals read as a binary number, in topological order. */
  ghost function Number(order: seq<nat>, evals: set<nat>, n: nat): nat
    requires n <= |order|
  {
    if n == 0 then 0
    else Number(order, evals, n - 1) + if order[n - 1] in evals then Pow2(n - 1) else 0
  }

  ghost function Rank(order: seq<nat>, e: nat): (r: nat)
    requires e in order
    ensures r < |order| && order[r] == e
  {
    var r: nat :| r < |order| && order[r] == e;
    r
  }

  /** The weight of an eval: the bit of its position. */
  ghost function Weight(order: seq<nat>, e: nat): nat {
    if e in order then Pow2(Rank(order, e)) else 0
  }

  lemma {:induction false} NumberIsBelow(order: seq<nat>, evals: set<nat>, n: nat)
    requires n <= |order|
    ensures Number(order, evals, n) < Pow2(n)
  {
    if n > 0 {
      NumberIsBelow(order, evals, n - 1);
    }
  }

  lemma {:induction false} NumberMonotone(order: seq<nat>, a: set<nat>, b: set<nat>, n: nat)
    requires n <= |order| && forall i :: 0 <= i < n && order[i] in a ==> order[i] in b
    ensures Number(order, a, n) <= Number(order, b, n)
  {
    if n > 0 {
      NumberMonotone(order, a, b, n - 1);
    }
  }

  lemma {:induction false} NumberAdds(order: seq<nat>, a: set<nat>, e: nat, n: nat)
    requires n <= |order| && Distinct(order) && e in order
    ensures Number(order, a + {e}, n) <= Number(order, a, n) + if Rank(order, e) < n then Weight(order, e) else 0
  {
    if n > 0 {
      NumberAdds(order, a, e, n - 1);
      assert order[n - 1] == e ==> Rank(order, e) == n - 1;
    }
  }

  /** Removing one bit and setting any lower ones makes the number smaller. */
  lemma {:induction false} NumberDecreases(order: seq<nat>, a: set<nat>, b: set<nat>, e: nat, n: nat)
    requires Distinct(order) && e in order && Rank(order, e) < n <= |order|
    requires e in a && e !in b
    requires forall i :: Rank(order, e) < i < n && order[i] in b ==> order[i] in a
    ensures Number(order, b, n) < Number(order, a, n)
  {
    if n - 1 == Rank(order, e) {
      NumberIsBelow(order, b, n - 1);
    } else {
      NumberDecreases(order, a, b, e, n - 1);
    }
  }

  /** Setting bits below `e` adds less than the bit of `e`. */
  lemma {:induction false} NumberAddsLower(order: seq<nat>, a: set<nat>, b: set<nat>, e: nat, n: nat)
    requires Distinct(order) && e in order && n <= |order|
    requires forall i :: 0 <= i < n && order[i] in b && order[i] !in a ==> i < Rank(order, e)
    ensures Number(order, b, n) <= Number(order, a, n) + Weight(order, e)
  {
    if n <= Rank(order, e) {
      NumberIsBelow(order, b, n);
      Pow2Grows(n, Rank(order, e));
    } else {
      NumberAddsLower(order, a, b, e, n - 1);
    }
  }

  lemma {:induction false} Pow2Grows(m: nat, n: nat)
    requires m <= n
    ensures Pow2(m) <= Pow2(n)
  {
    if m < n {
      Pow2Grows(m, n - 1);
    }
  }

  /** The worker evaluates the eval and has not published all its values. */
  ghost predicate Evaluating(s: State, e: nat) {
    (s.worker.Reading? && s.worker.eval == e) || (s.worker.Publishing? && s.worker.eval == e)
  }

  /** The evals that will be evaluated without another outside event: pending
      ones and those the current eval triggers. */
  ghost function Ahead(c: Config, s: State): set<nat>
    requires IsConfig(c) && Shaped(c, s)
  {
    set e | 0 <= e < |c.evals| && ((s.pending[e] && !c.periodic[e]) || exists x :: Evaluating(s, x) && Triggers(c.evals, x, e))
  }

  /** The weight of the callbacks from the `i`-th on. */
  ghost function FireWeight(order: seq<nat>, list: seq<nat>): nat {
    if list == [] then 0 else Weight(order, list[0]) + FireWeight(order, list[1..])
  }

  /** The weight of the callbacks that a dispatch from another thread still fires. */
  ghost function Part(c: Config, order: seq<nat>, d: nat, next: int): nat
    requires next <= |CallbacksOf(c, d)|
  {
    if next >= 0 && Outside(c, d) then FireWeight(order, CallbacksOf(c, d)[next..]) else 0
  }

  ghost function FiringWeight(c: Config, order: seq<nat>, firing: seq<int>, n: nat): nat
    requires n <= |firing| && forall d :: 0 <= d < n ==> firing[d] <= |CallbacksOf(c, d)|
  {
    if n == 0 then 0 else FiringWeight(c, order, firing, n - 1) + Part(c, order, n - 1, firing[n - 1])
  }

  lemma {:induction false} FiringWeightUpdate(c: Config, order: seq<nat>, firing: seq<int>, n: nat, d: nat, next: int)
    requires d < n <= |firing| && forall b :: 0 <= b < n ==> firing[b] <= |CallbacksOf(c, b)|
    requires next <= |CallbacksOf(c, d)|
    ensures FiringWeight(c, order, firing[d := next], n)
      == FiringWeight(c, order, firing, n) - Part(c, order, d, firing[d]) + Part(c, order, d, next)
  {
    if d == n - 1 {
      FiringWeightSame(c, order, firing, firing[d := next], n - 1);
    } else {
      FiringWeightUpdate(c, order, firing, n - 1, d, next);
    }
  }

  lemma {:induction false} FiringWeightSame(c: Config, order: seq<nat>, f1: seq<int>, f2: seq<int>, n: nat)
    requires n <= |f1| && n <= |f2| && forall b :: 0 <= b < n ==> f1[b] == f2[b] <= |CallbacksOf(c, b)|
    ensures FiringWeight(c, order, f1, n) == FiringWeight(c, order, f2, n)
  {
    if n > 0 {
      FiringWeightSame(c, order, f1, f2, n - 1);
    }
  }

  ghost function Potential(c: Config, order: seq<nat>, s: State): nat
    requires IsConfig(c) && Shaped(c, s)
  {
    Number(order, Ahead(c, s), |order|) + FiringWeight(c, order, s.firing, c.names)
  }

  /** What an outside event may cost: a dispatch the weight of the evals it
      triggers, a periodic evaluation the weight of its eval. */
  ghost function Cost(c: Config, order: seq<nat>, s: State, a: Action): nat
    requires IsConfig(c) && Shaped(c, s) && Enabled(c, s, a)
  {
    match a
    case Begin(d) => FireWeight(order, CallbacksOf(c, d))
    case Scan(_) => if Starts(c, s, a) && c.periodic[s.worker.idx] then Weight(order, s.worker.idx) else 0
    case _ => 0
  }

  /** The step starts a triggered evaluation. */
  ghost predicate StartsTriggered(c: Config, s: State, a: Action)
    requires IsConfig(c) && Shaped(c, s) && Enabled(c, s, a)
  {
    Starts(c, s, a) && !c.periodic[s.worker.idx]
  }

  ghost predicate IsOrder(c: Config, order: seq<nat>) {
    IsTopological(c.evals, order) && forall e :: 0 <= e < |c.evals| ==> e in order
  }

  /** An eval triggers only evals of lower rank, so not itself. */
  lemma TriggersLower(c: Config, order: seq<nat>, x: nat, y: nat)
    requires IsOrder(c, order) && Triggers(c.evals, x, y)
    ensures Rank(order, y) < Rank(order, x)
  {
    assert TriggersBefore(c.evals, order, order[Rank(order, x)], Rank(order, x));
  }

  /** A callback adds its eval to those ahead. */
  lemma AheadAfterFire(c: Config, s: State, d: nat, e: nat)
    requires Inv(c, s) && Enabled(c, s, Fire(d)) && Shaped(c, Do(c, s, Fire(d))) && e == CallbacksOf(c, d)[s.firing[d]]
    ensures Ahead(c, Do(c, s, Fire(d))) <= Ahead(c, s) + {e}
  {
    var s' := Do(c, s, Fire(d));
    CallbackExists(c, d, s.firing[d]);
    forall f | f in Ahead(c, s') && f != e ensures f in Ahead(c, s) {
      assert s'.pending[f] == s.pending[f];
      if x :| Evaluating(s', x) && Triggers(c.evals, x, f) {
        assert Evaluating(s, x);
      }
    }
  }

  lemma FirePotential(c: Config, order: seq<nat>, s: State, d: nat)
    requires Inv(c, s) && Enabled(c, s, Fire(d)) && IsOrder(c, order) && Shaped(c, Do(c, s, Fire(d)))
    ensures Potential(c, order, Do(c, s, Fire(d))) <= Potential(c, order, s)
  {
    var s', list := Do(c, s, Fire(d)), CallbacksOf(c, d);
    var k := s.firing[d];
    CallbackExists(c, d, k);
    var e := list[k];
    FiringWeightUpdate(c, order, s.firing, c.names, d, k + 1);
    AheadAfterFire(c, s, d, e);
    if Outside(c, d) {
      assert list[k..][1..] == list[k + 1..];
      NumberAdds(order, Ahead(c, s), e, |order|);
      NumberMonotone(order, Ahead(c, s'), Ahead(c, s) + {e}, |order|);
    } else {
      assert Evaluating(s, s.worker.eval) && Triggers(c.evals, s.worker.eval, e);
      assert e in Ahead(c, s);
      NumberMonotone(order, Ahead(c, s'), Ahead(c, s), |order|);
    }
  }

  lemma StartPotential(c: Config, order: seq<nat>, s: State, a: Action)
    requires Inv(c, s) && Enabled(c, s, a) && Starts(c, s, a) && IsOrder(c, order) && Shaped(c, Do(c, s, a))
    ensures StartsTriggered(c, s, a) ==> Potential(c, order, Do(c, s, a)) < Potential(c, order, s)
    ensures !StartsTriggered(c, s, a) ==>
      Potential(c, order, Do(c, s, a)) <= Potential(c, order, s) + Weight(order, s.worker.idx)
  {
    var s', x := Do(c, s, a), s.worker.idx;
    forall e | e in Ahead(c, s') ensures (e in Ahead(c, s) && (e != x || c.periodic[x])) || Rank(order, e) < Rank(order, x) {
      if Triggers(c.evals, x, e) {
        TriggersLower(c, order, x, e);
      }
    }
    if StartsTriggered(c, s, a) {
      NumberDecreases(order, Ahead(c, s), Ahead(c, s'), x, |order|);
    } else {
      NumberAddsLower(order, Ahead(c, s), Ahead(c, s'), x, |order|);
    }
  }

  lemma OtherPotential(c: Config, order: seq<nat>, s: State, a: Action)
    requires Inv(c, s) && Enabled(c, s, a) && !a.Fire? && !Starts(c, s, a) && Shaped(c, Do(c, s, a))
    ensures Potential(c, order, Do(c, s, a)) <= Potential(c, order, s) + Cost(c, order, s, a)
  {
    var s' := Do(c, s, a);
    NumberMonotone(order, Ahead(c, s'), Ahead(c, s), |order|);
    match a
    case Begin(d) =>
      FiringWeightUpdate(c, order, s.firing, c.names, d, 0);
      assert CallbacksOf(c, d)[0..] == CallbacksOf(c, d);
    case End(d) => FiringWeightUpdate(c, order, s.firing, c.names, d, -1);
    case Publish =>
      if s'.worker.Publishing? {
        FiringWeightUpdate(c, order, s.firing, c.names, c.evals[s.worker.eval].published[s.worker.next], 0);
      }
    case Published =>
      FiringWeightUpdate(c, order, s.firing, c.names, c.evals[s.worker.eval].published[s.worker.next], -1);
    case _ =>
  }

  /** Only outside events raise the potential, and every triggered evaluation
      lowers it. */
  lemma StepPotential(c: Config, order: seq<nat>, s: State, a: Action)
    requires Inv(c, s) && Enabled(c, s, a) && IsOrder(c, order) && Shaped(c, Do(c, s, a))
    ensures Potential(c, order, Do(c, s, a)) + (if StartsTriggered(c, s, a) then 1 else 0)
      <= Potential(c, order, s) + Cost(c, order, s, a)
  {
    if a.Fire? {
      FirePotential(c, order, s, a.d);
    } else if Starts(c, s, a) {
      StartPotential(c, order, s, a);
    } else {
      OtherPotential(c, order, s, a);
    }
  }

  /** The triggered evaluations that the first `n` steps start. */
  ghost function Evaluations(c: Config, run: seq<State>, steps: seq<Action>, n: nat): nat
    requires IsTrace(c, run, steps) && n <= |steps|
  {
    if n == 0 then 0
    else Evaluations(c, run, steps, n - 1) + if StartsTriggered(c, run[n - 1], steps[n - 1]) then 1 else 0
  }

  ghost function TotalCost(c: Config, order: seq<nat>, run: seq<State>, steps: seq<Action>, n: nat): nat
    requires IsTrace(c, run, steps) && n <= |steps|
  {
    if n == 0 then 0
    else TotalCost(c, order, run, steps, n - 1) + Cost(c, order, run[n - 1], steps[n - 1])
  }

  /** In every interleaving, from any state on, the number of triggered evaluations is
      bounded by the potential of that state and the cost of the outside events since:
      a cascade cannot go on by itself. */
  lemma {:induction false} CascadesEnd(c: Config, order: seq<nat>, run: seq<State>, steps: seq<Action>, n: nat)
    requires IsTrace(c, run, steps) && n <= |steps| && IsOrder(c, order)
    ensures Evaluations(c, run, steps, n) + Potential(c, order, run[n])
      <= Potential(c, order, run[0]) + TotalCost(c, order, run, steps, n)
  {
    if n > 0 {
      CascadesEnd(c, order, run, steps, n - 1);
      TraceStepPotential(c, order, run, steps, n - 1);
    }
  }

  lemma TraceStepPotential(c: Config, order: seq<nat>, run: seq<State>, steps: seq<Action>, i: nat)
    requires IsTrace(c, run, steps) && i < |steps| && IsOrder(c, order)
    ensures Potential(c, order, run[i + 1]) + (if StartsTriggered(c, run[i], steps[i]) then 1 else 0)
      <= Potential(c, order, run[i]) + Cost(c, order, run[i], steps[i])
  {
    TraceInv(c, run, steps, i);
    assert Shaped(c, run[i + 1]) && run[i + 1] == Do(c, run[i], steps[i]);
    StepPotential(c, order, run[i], steps[i]);
  }

  /** From any state on in which no outside dispatch is under way, fewer than 2^n
      triggered evaluations follow without an outside event. */
  lemma {:induction false} QuietTraceEnds(c: Config, order: seq<nat>, run: seq<State>, steps: seq<Action>)
    requires IsTrace(c, run, steps) && IsOrder(c, order)
    requires forall d :: 0 <= d < c.names && Outside(c, d) ==> run[0].firing[d] == -1
    requires forall i :: 0 <= i < |steps| ==> Cost(c, order, run[i], steps[i]) == 0
    ensures Evaluations(c, run, steps, |steps|) < Pow2(|c.evals|)
  {
    CascadesEnd(c, order, run, steps, |steps|);
    NothingFires(c, order, run[0].firing, c.names);
    NoCost(c, order, run, steps, |steps|);
    NumberIsBelow(order, Ahead(c, run[0]), |order|);
    Pigeonhole(order, |c.evals|);
    Pow2Grows(|order|, |c.evals|);
  }

  /** At whatever moment `m` of a run outside events stop: fewer than 2^n triggered
      evaluations follow until the next one. */
  lemma {:induction false} QuietCascadesEnd(
    c: Config, order: seq<nat>, run: seq<State>, steps: seq<Action>, m: nat, n: nat
  )
    requires IsRun(c, run, steps) && m <= n <= |steps| && IsOrder(c, order)
    requires forall d :: 0 <= d < c.names && Outside(c, d) ==> run[m].firing[d] == -1
    requires forall i :: m <= i < n ==> Cost(c, order, run[i], steps[i]) == 0
    ensures IsTrace(c, run[m..n + 1], steps[m..n])
    ensures Evaluations(c, run[m..n + 1], steps[m..n], n - m) < Pow2(|c.evals|)
  {
    PartOfRun(c, run, steps, m, n);
    var part, acts := run[m..n + 1], steps[m..n];
    forall i | 0 <= i < |acts| ensures Cost(c, order, part[i], acts[i]) == 0 {
      assert part[i] == run[m + i] && acts[i] == steps[m + i];
    }
    QuietTraceEnds(c, order, part, acts);
  }

  lemma {:induction false} NothingFires(c: Config, order: seq<nat>, firing: seq<int>, n: nat)
    requires n <= |firing| && forall d :: 0 <= d < n ==> firing[d] <= |CallbacksOf(c, d)|
    requires forall d :: 0 <= d < n && Outside(c, d) ==> firing[d] == -1
    ensures FiringWeight(c, order, firing, n) == 0
  {
    if n > 0 {
      NothingFires(c, order, firing, n - 1);
    }
  }

  lemma {:induction false} NoCost(c: Config, order: seq<nat>, run: seq<State>, steps: seq<Action>, n: nat)
    requires IsTrace(c, run, steps) && n <= |steps|
    requires forall i :: 0 <= i < |steps| ==> Cost(c, order, run[i], steps[i]) == 0
    ensures TotalCost(c, order, run, steps, n) == 0
  {
    if n > 0 {
      NoCost(c, order, run, steps, n - 1);
    }
  }

  // ----- The schedule of the worker -----

  /** What trigger_update does to the flags. */
  ghost predicate IsTriggered(pending: seq<bool>, pending': seq<bool>, e: nat) {
    e < |pending| && pending' == pending[e := true]
  }

  /** What the scan does to the flags at eval `e`, and whether it is evaluated. */
  ghost predicate IsChecked(pending: seq<bool>, pending': seq<bool>, e: nat, isPeriodic: bool, due: bool) {
    && e < |pending|
    && if isPeriodic then pending' == pending else due == pending[e] && pending' == pending[e := false]
  }

  /** The fields of an eval that the worker and trigger_update change. */
  class Schedule {
    const period: seq<int>        // 0 = triggered
    const next: array<int>
    const pending: array<bool>
    var signalled: bool

    ghost predicate Valid() {
      |period| == next.Length == pending.Length && forall e :: 0 <= e < |period| ==> period[e] >= 0
    }

    constructor (period: seq<int>, now: int)
      requires forall e :: 0 <= e < |period| ==> period[e] >= 0
      ensures Valid() && this.period == period && !signalled && fresh(next) && fresh(pending)
      ensures forall e :: 0 <= e < |period| ==> pending[e] && next[e] == now
    {
      this.period, signalled := period, false;
      next := new int[|period|](_ => now);
      pending := new bool[|period|](_ => true);
    }

    /** trigger_update. */
    method Trigger(e: nat)
      requires Valid() && e < |period|
      modifies pending, this`signalled
      ensures signalled && IsTriggered(old(pending[..]), pending[..], e)
    {
      pending[e] := true;
      signalled := true;
    }

    /** One round of the scan.  A triggered eval is due if it is pending, which is
        cleared.  A periodic one is due if its time has come; it keeps its schedule:
        the next time is the first one after now on the same raster. */
    method Check(e: nat, now: int) returns (due: bool, ghost periods: nat)
      requires Valid() && e < |period|
      modifies next, pending
      ensures IsChecked(old(pending[..]), pending[..], e, period[e] > 0, due)
      ensures forall f :: 0 <= f < |period| && (f != e || period[f] == 0 || !due) ==> next[f] == old(next[f])
      ensures period[e] > 0 ==> due == (now >= old(next[e]))
      ensures period[e] > 0 && due ==> now < next[e] <= now + period[e] && next[e] == old(next[e]) + periods * period[e]
    {
      due, periods := false, 0;
      if period[e] > 0 {
        if now >= next[e] {
          var missed := (now - next[e]) / period[e] + 1;
          ScheduleKept(now - next[e], period[e]);
          next[e] := next[e] + missed * period[e];
          due, periods := true, missed;
        }
      } else if pending[e] {
        pending[e] := false;
        due := true;
      }
    }
  }

  /** A round of the scan is the step Scan of the worker, with the outcome for a
      periodic eval that the schedule gives. */
  lemma CheckIsScan(c: Config, s: State, pending': seq<bool>, due: bool)
    requires Inv(c, s) && s.worker.Scanning? && s.worker.idx < |c.evals|
    requires IsChecked(s.pending, pending', s.worker.idx, c.periodic[s.worker.idx], due)
    ensures Enabled(c, s, Scan(due)) && (Starts(c, s, Scan(due)) <==> due)
    ensures Do(c, s, Scan(due)).pending == pending'
    ensures Do(c, s, Scan(due)).worker
      == if due then Reading(s.worker.idx, 0) else Scanning(s.worker.idx + 1, s.worker.evaluated)
  {
    var e := s.worker.idx;
    if !c.periodic[e] && !s.pending[e] {
      assert s.pending[e := false] == s.pending;
    }
  }

  /** The callback of an eval is trigger_update: the step Fire marks that eval, and
      signals the worker if it waits. */
  lemma FireIsTrigger(c: Config, s: State, d: nat, pending': seq<bool>)
    requires Inv(c, s) && Enabled(c, s, Fire(d))
    requires IsTriggered(s.pending, pending', CallbacksOf(c, d)[s.firing[d]])
    ensures Do(c, s, Fire(d)).pending == pending'
    ensures Do(c, s, Fire(d)).worker == if s.worker.Waiting? then Waiting(true) else s.worker
    ensures Do(c, s, Fire(d)).store == s.store && Do(c, s, Fire(d)).lastRead == s.lastRead
  {
    CallbackExists(c, d, s.firing[d]);
  }

  lemma ScheduleKept(late: int, period: int)
    requires late >= 0 && period > 0
    ensures late < (late / period + 1) * period <= late + period
  {
    assert late == late / period * period + late % period;
  }
}
