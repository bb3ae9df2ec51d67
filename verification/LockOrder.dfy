/** The locks that inputs, watchdog, counters and evals nest while a value travels
    through the gateway, and why no threads ever wait for each other in a cycle. */
module LockOrder {

  /** A counter reads the name `source` and publishes the name `name`. */
  datatype CounterCfg = CounterCfg(source: nat, name: nat)

  /** What a callback of a name does: update a counter, or take one lock that
      nothing is called under (module lock of the evals, write lock of a Modbus
      master, send buffer of a CAN frame). */
  datatype Callback = ToCounter(c: nat) | ToLeaf(l: nat)

  datatype Config = Config(counters: seq<CounterCfg>, callbacks: seq<seq<Callback>>)

  /** A counter publishes the name. */
  predicate IsCounterName(counters: seq<CounterCfg>, d: nat) {
    exists c :: 0 <= c < |counters| && counters[c].name == d
  }

  /** No counter reads the name of a counter. */
  predicate NotChained(counters: seq<CounterCfg>) {
    forall c :: 0 <= c < |counters| ==> !IsCounterName(counters, counters[c].source)
  }

  /** find_counter, and the check at the end of counter_configure. */
  method FindCounter(counters: seq<CounterCfg>, d: nat) returns (found: bool)
    ensures found <==> IsCounterName(counters, d)
  {
    for c := 0 to |counters|
      invariant forall b :: 0 <= b < c ==> counters[b].name != d
    {
      if counters[c].name == d {
        return true;
      }
    }
    found := false;
  }

  method CheckNotChained(counters: seq<CounterCfg>) returns (ok: bool)
    ensures ok <==> NotChained(counters)
  {
    for c := 0 to |counters|
      invariant forall b :: 0 <= b < c ==> !IsCounterName(counters, counters[b].source)
    {
      var found := FindCounter(counters, counters[c].source);
      if found {
        return false;
      }
    }
    ok := true;
  }

  /** Counters are called back by their source only. */
  ghost predicate IsConfig(c: Config) {
    && (forall k :: 0 <= k < |c.counters| ==> c.counters[k].name < |c.callbacks| && c.counters[k].source < |c.callbacks|)
    && (forall d, i :: 0 <= d < |c.callbacks| && 0 <= i < |c.callbacks[d]| && c.callbacks[d][i].ToCounter? ==>
          c.callbacks[d][i].c < |c.counters| && c.counters[c.callbacks[d][i].c].source == d)
  }

  // ----- Threads -----

  datatype Lock = Disp(d: nat) | Last(d: nat) | Counter(c: nat) | Leaf(l: nat)

  /** One call on the stack of a thread and how far it is. */
  datatype Frame =
    | Dispatch(d: nat, stage: DispatchStage)
    | Update(c: nat, step: UpdateStep)
    | Short(l: Lock, held: bool)       // takes one leaf lock, also of uvrgw_conf_get_val

  datatype DispatchStage = WantDisp | Entered | WantLast | InLast | Firing(next: nat)
  datatype UpdateStep = WantCounter | Locked | Published

  function HeldBy(f: Frame): set<Lock> {
    match f
    case Dispatch(d, WantDisp) => {}
    case Dispatch(d, InLast) => {Disp(d), Last(d)}
    case Dispatch(d, _) => {Disp(d)}
    case Update(c, step) => if step == WantCounter then {} else {Counter(c)}
    case Short(l, held) => if held then {l} else {}
  }

  /** The lock a call waits for, if it does. */
  function Wanted(f: Frame): set<Lock> {
    match f
    case Dispatch(d, WantDisp) => {Disp(d)}
    case Dispatch(d, WantLast) => {Last(d)}
    case Dispatch(d, _) => {}
    case Update(c, step) => if step == WantCounter then {Counter(c)} else {}
    case Short(l, held) => if held then {} else {l}
  }

  type Stack = seq<Frame>

  function Held(s: Stack): set<Lock> {
    set i, l | 0 <= i < |s| && l in HeldBy(s[i]) :: l
  }

  function Wants(s: Stack): set<Lock> {
    if s == [] then {} else Wanted(s[|s| - 1])
  }

  /** What an idle thread may begin: an input, the watchdog or an eval dispatches a
      name that no counter publishes; the counter thread, or the start, updates a
      counter; any thread takes one leaf lock, and saving takes one counter lock. */
  ghost predicate CanBegin(c: Config, f: Frame) {
    match f
    case Dispatch(d, stage) => d < |c.callbacks| && stage == WantDisp && !IsCounterName(c.counters, d)
    case Update(k, step) => k < |c.counters| && step == WantCounter
    case Short(l, held) => !held && (l.Leaf? || l.Last?)
  }

  function FrameOf(b: Callback): Frame {
    match b
    case ToCounter(c) => Update(c, WantCounter)
    case ToLeaf(l) => Short(Leaf(l), false)
  }

  /** The stacks a thread can go on to without waiting.  A check or the start may find
      nothing to store, a callback may be left out (that of the source), and a counter
      may have nothing to publish. */
  ghost predicate GoesOn(c: Config, s: Stack, s': Stack) {
    && s != []
    && var n := |s| - 1;
       var f, rest := s[n], s[..n];
       match f
       case Dispatch(d, Entered) => s' == rest || s' == rest + [Dispatch(d, WantLast)]
       case Dispatch(d, InLast) => s' == rest + [Dispatch(d, Firing(0))]
       case Dispatch(d, Firing(k)) =>
         if d < |c.callbacks| && k < |c.callbacks[d]| then
           || s' == rest + [Dispatch(d, Firing(k + 1))]
           || s' == rest + [Dispatch(d, Firing(k + 1)), FrameOf(c.callbacks[d][k])]
         else s' == rest
       case Update(k, Locked) =>
         || s' == rest + [Update(k, Published)]
         || (k < |c.counters| && s' == rest + [Update(k, Published), Dispatch(c.counters[k].name, WantDisp)])
       case Update(k, Published) => s' == rest
       case Short(l, held) => held && s' == rest
       case _ => false
  }

  /** The stack after the lock waited for has been obtained. */
  function Obtained(s: Stack): Stack
    requires Wants(s) != {}
  {
    var n := |s| - 1;
    s[..n] + [match s[n]
              case Dispatch(d, WantDisp) => Dispatch(d, Entered)
              case Dispatch(d, _) => Dispatch(d, InLast)
              case Update(c, _) => Update(c, Locked)
              case Short(l, _) => Short(l, true)]
  }

  type Threads = seq<Stack>

  ghost predicate IsFree(ts: Threads, l: Lock) {
    forall t :: 0 <= t < |ts| ==> l !in Held(ts[t])
  }

  /** Thread `t` takes a step. */
  ghost predicate Steps(c: Config, ts: Threads, t: nat, ts': Threads) {
    && t < |ts| && |ts'| == |ts| && ts' == ts[t := ts'[t]]
    && (|| (ts[t] == [] && |ts'[t]| == 1 && CanBegin(c, ts'[t][0]))
        || GoesOn(c, ts[t], ts'[t])
        || (Wants(ts[t]) != {} && (forall l :: l in Wants(ts[t]) ==> IsFree(ts, l)) && ts'[t] == Obtained(ts[t])))
  }

  /** An interleaving: thread `who[i]` takes the i-th step. */
  ghost predicate IsRun(c: Config, run: seq<Threads>, who: seq<nat>) {
    && |run| == |who| + 1 && (forall t :: 0 <= t < |run[0]| ==> run[0][t] == [])
    && (forall i :: 0 <= i < |who| ==> Steps(c, run[i], who[i], run[i + 1]))
  }

  // ----- The order -----

  function Rank(c: Config, l: Lock): nat {
    match l
    case Disp(d) => if IsCounterName(c.counters, d) then 2 else 0
    case Counter(_) => 1
    case _ => 3
  }

  /** The lock a call takes first. */
  function First(f: Frame): Lock {
    match f
    case Dispatch(d, _) => Disp(d)
    case Update(c, _) => Counter(c)
    case Short(l, _) => l
  }

  /** Calls are nested in the order of their locks, and only the last one waits. */
  ghost predicate Ordered(c: Config, s: Stack) {
    && (forall i :: 0 <= i < |s| ==> IsCall(c, s[i]))
    && (forall i :: 0 <= i < |s| - 1 ==> HeldBy(s[i]) == {First(s[i])} && Wanted(s[i]) == {})
    && (forall i, j :: 0 <= i < j < |s| ==> Rank(c, First(s[i])) < Rank(c, First(s[j])))
  }

  ghost predicate IsCall(c: Config, f: Frame) {
    match f
    case Dispatch(d, _) => d < |c.callbacks|
    case Update(k, _) => k < |c.counters|
    case Short(l, _) => l.Leaf? || l.Last?
  }

  /** Everything a thread holds ranks below what it waits for. */
  lemma WaitsAbove(c: Config, s: Stack, held: Lock, wanted: Lock)
    requires Ordered(c, s) && held in Held(s) && wanted in Wants(s)
    ensures Rank(c, held) < Rank(c, wanted)
  {
    var i :| 0 <= i < |s| && held in HeldBy(s[i]);
    var n := |s| - 1;
    if i < n {
      assert held == First(s[i]) && Rank(c, First(s[i])) < Rank(c, First(s[n]));
    }
  }

  lemma OrderedPush(c: Config, s: Stack, f: Frame)
    requires Ordered(c, s) && s != [] && IsCall(c, f)
    requires HeldBy(s[|s| - 1]) == {First(s[|s| - 1])} && Wanted(s[|s| - 1]) == {}
    requires Rank(c, First(s[|s| - 1])) < Rank(c, First(f))
    ensures Ordered(c, s + [f])
  {
    forall i, j | 0 <= i < j < |s| + 1 ensures Rank(c, First((s + [f])[i])) < Rank(c, First((s + [f])[j])) {
      if j == |s| && i < |s| - 1 {
        assert Rank(c, First(s[i])) < Rank(c, First(s[|s| - 1]));
      }
    }
  }

  lemma OrderedReplace(c: Config, s: Stack, f: Frame)
    requires Ordered(c, s) && s != [] && IsCall(c, f) && First(f) == First(s[|s| - 1])
    ensures Ordered(c, s[..|s| - 1] + [f])
  {
  }

  /** A counter is updated from names that no counter publishes: the ranks grow. */
  lemma CallbackRanks(c: Config, d: nat, k: nat)
    requires IsConfig(c) && NotChained(c.counters) && d < |c.callbacks| && k < |c.callbacks[d]|
    ensures IsCall(c, FrameOf(c.callbacks[d][k]))
    ensures Rank(c, Disp(d)) < Rank(c, First(FrameOf(c.callbacks[d][k])))
  {
    if c.callbacks[d][k].ToCounter? {
      assert c.counters[c.callbacks[d][k].c].source == d;
    }
  }

  lemma HeldMore(s: Stack, f: Frame)
    ensures Held(s + [f]) == Held(s) + HeldBy(f)
  {
    forall l | l in Held(s) + HeldBy(f) ensures l in Held(s + [f]) {
      if l in HeldBy(f) {
        assert (s + [f])[|s|] == f;
      } else {
        var i :| 0 <= i < |s| && l in HeldBy(s[i]);
        assert (s + [f])[i] == s[i];
      }
    }
  }

  lemma HeldOfTop(s: Stack)
    requires s != []
    ensures Held(s) == Held(s[..|s| - 1]) + HeldBy(s[|s| - 1])
  {
    assert s == s[..|s| - 1] + [s[|s| - 1]];
    HeldMore(s[..|s| - 1], s[|s| - 1]);
  }

  /** Calling from a dispatch or an update keeps the order. */
  lemma CallOrdered(c: Config, s: Stack, g: Frame, h: Frame)
    requires Ordered(c, s) && s != [] && IsCall(c, g) && IsCall(c, h) && First(g) == First(s[|s| - 1])
    requires HeldBy(g) == HeldBy(s[|s| - 1]) == {First(g)} && Wanted(g) == HeldBy(h) == {}
    requires Rank(c, First(g)) < Rank(c, First(h))
    ensures Ordered(c, s[..|s| - 1] + [g]) && Ordered(c, s[..|s| - 1] + [g, h])
    ensures Held(s[..|s| - 1] + [g]) == Held(s) && Held(s[..|s| - 1] + [g, h]) == Held(s)
  {
    var rest := s[..|s| - 1];
    OrderedReplace(c, s, g);
    OrderedPush(c, rest + [g], h);
    assert rest + [g, h] == rest + [g] + [h];
    HeldOfTop(s);
    HeldMore(rest, g);
    HeldMore(rest + [g], h);
  }

  lemma DispatchOrdered(c: Config, s: Stack, s': Stack)
    requires IsConfig(c) && NotChained(c.counters) && Ordered(c, s) && GoesOn(c, s, s') && s[|s| - 1].Dispatch?
    ensures Ordered(c, s') && Held(s') <= Held(s)
  {
    var n, d := |s| - 1, s[|s| - 1].d;
    HeldOfTop(s);
    if s[n].stage.Entered? {
      OrderedReplace(c, s, Dispatch(d, WantLast));
      HeldMore(s[..n], Dispatch(d, WantLast));
    } else if s[n].stage.InLast? {
      OrderedReplace(c, s, Dispatch(d, Firing(0)));
      HeldMore(s[..n], Dispatch(d, Firing(0)));
    } else {
      var k := s[n].stage.next;
      if k < |c.callbacks[d]| {
        CallbackRanks(c, d, k);
        CallOrdered(c, s, Dispatch(d, Firing(k + 1)), FrameOf(c.callbacks[d][k]));
      }
    }
  }

  lemma UpdateOrdered(c: Config, s: Stack, s': Stack)
    requires IsConfig(c) && NotChained(c.counters) && Ordered(c, s) && GoesOn(c, s, s') && s[|s| - 1].Update?
    ensures Ordered(c, s') && Held(s') <= Held(s)
  {
    var n, k := |s| - 1, s[|s| - 1].c;
    HeldOfTop(s);
    if s[n].step == Locked {
      assert IsCounterName(c.counters, c.counters[k].name);
      CallOrdered(c, s, Update(k, Published), Dispatch(c.counters[k].name, WantDisp));
    }
  }

  lemma GoesOnOrdered(c: Config, s: Stack, s': Stack)
    requires IsConfig(c) && NotChained(c.counters) && Ordered(c, s) && GoesOn(c, s, s')
    ensures Ordered(c, s') && Held(s') <= Held(s)
  {
    if s[|s| - 1].Dispatch? {
      DispatchOrdered(c, s, s');
    } else if s[|s| - 1].Update? {
      UpdateOrdered(c, s, s');
    } else {
      HeldOfTop(s);
    }
  }

  lemma ObtainedOrdered(c: Config, s: Stack)
    requires Ordered(c, s) && Wants(s) != {}
    ensures Ordered(c, Obtained(s)) && Held(Obtained(s)) == Held(s) + Wants(s)
  {
    var n := |s| - 1;
    var f := Obtained(s)[n];
    OrderedReplace(c, s, f);
    HeldOfTop(s);
    HeldMore(s[..n], f);
  }

  // ----- No deadlock -----

  /** No lock is held by two threads, and every thread nests in the order. */
  ghost predicate Inv(c: Config, ts: Threads) {
    && (forall t :: 0 <= t < |ts| ==> Ordered(c, ts[t]))
    && (forall t, u :: 0 <= t < u < |ts| ==> Held(ts[t]) !! Held(ts[u]))
  }

  lemma StepInv(c: Config, ts: Threads, t: nat, ts': Threads)
    requires IsConfig(c) && NotChained(c.counters) && Inv(c, ts) && Steps(c, ts, t, ts')
    ensures Inv(c, ts')
  {
    var s, s' := ts[t], ts'[t];
    if s == [] {
      HeldOfTop(s');
      assert Held(s') == {};
    } else if GoesOn(c, s, s') {
      GoesOnOrdered(c, s, s');
    } else {
      ObtainedOrdered(c, s);
    }
    assert Ordered(c, s');
    forall u, v | 0 <= u < v < |ts'| ensures Held(ts'[u]) !! Held(ts'[v]) {
      assert Held(ts[u]) !! Held(ts[v]);
    }
  }

  lemma {:induction false} RunInv(c: Config, run: seq<Threads>, who: seq<nat>, n: nat)
    requires IsConfig(c) && NotChained(c.counters) && IsRun(c, run, who) && n < |run|
    ensures Inv(c, run[n])
  {
    if n > 0 {
      RunInv(c, run, who, n - 1);
      StepInv(c, run[n - 1], who[n - 1], run[n]);
    }
  }

  /** Thread `t` waits for a lock that thread `u` holds. */
  ghost predicate WaitsFor(ts: Threads, t: nat, u: nat) {
    t < |ts| && u < |ts| && Wants(ts[t]) * Held(ts[u]) != {}
  }

  /** A chain of threads each waiting for the next; a single thread may wait for itself. */
  ghost predicate IsWaitCycle(ts: Threads, p: seq<nat>) {
    && |p| > 1 && p[|p| - 1] == p[0]
    && forall i :: 0 <= i < |p| - 1 ==> WaitsFor(ts, p[i], p[i + 1])
  }

  lemma {:induction false} RanksGrow(c: Config, ts: Threads, p: seq<nat>, i: nat, l: Lock, m: Lock)
    requires Inv(c, ts) && 0 < i < |p| && forall k :: 0 <= k < |p| - 1 ==> WaitsFor(ts, p[k], p[k + 1])
    requires p[0] < |ts| && p[i] < |ts| && l in Wants(ts[p[0]]) && m in Wants(ts[p[i]])
    ensures Rank(c, l) < Rank(c, m)
  {
    assert WaitsFor(ts, p[i - 1], p[i]);
    var h :| h in Wants(ts[p[i - 1]]) * Held(ts[p[i]]);
    WaitsAbove(c, ts[p[i]], h, m);
    if i == 1 {
      assert l == h;
    } else {
      RanksGrow(c, ts, p, i - 1, l, h);
    }
  }

  /** In every reachable state no threads wait for each other in a cycle. */
  lemma NoWaitCycle(c: Config, run: seq<Threads>, who: seq<nat>, n: nat, p: seq<nat>)
    requires IsConfig(c) && NotChained(c.counters) && IsRun(c, run, who) && n < |run|
    ensures !IsWaitCycle(run[n], p)
  {
    if IsWaitCycle(run[n], p) {
      RunInv(c, run, who, n);
      assert WaitsFor(run[n], p[0], p[1]);
      var l :| l in Wants(run[n][p[0]]);
      RanksGrow(c, run[n], p, |p| - 1, l, l);
    }
  }

  ghost predicate StepsTo(c: Config, ts: Threads, t: nat, s: Stack) {
    t < |ts| && Steps(c, ts, t, ts[t := s])
  }

  /** Thread `t` can go on by itself or obtain the lock it waits for. */
  ghost predicate CanStep(c: Config, ts: Threads, t: nat) {
    t < |ts| && ts[t] != [] && exists s :: StepsTo(c, ts, t, s)
  }

  /** A way to go on for a thread that does not wait. */
  function Next(c: Config, s: Stack): Stack
    requires s != []
  {
    var n := |s| - 1;
    match s[n]
    case Dispatch(d, Entered) => s[..n] + [Dispatch(d, WantLast)]
    case Dispatch(d, InLast) => s[..n] + [Dispatch(d, Firing(0))]
    case Dispatch(d, Firing(k)) =>
      if d < |c.callbacks| && k < |c.callbacks[d]| then s[..n] + [Dispatch(d, Firing(k + 1))] else s[..n]
    case Update(k, Locked) => s[..n] + [Update(k, Published)]
    case _ => s[..n]
  }

  lemma RunsUnlessWaiting(c: Config, ts: Threads, t: nat)
    requires t < |ts| && ts[t] != []
    requires forall l :: l in Wants(ts[t]) ==> IsFree(ts, l)
    ensures CanStep(c, ts, t)
  {
    if Wants(ts[t]) != {} {
      assert StepsTo(c, ts, t, Obtained(ts[t]));
    } else {
      assert StepsTo(c, ts, t, Next(c, ts[t]));
    }
  }

  /** From a thread that is not idle, following who waits for whom ends at a thread
      that can take a step. */
  lemma {:induction false} SomeoneCanStep(c: Config, ts: Threads, t: nat, rank: nat) returns (u: nat)
    requires IsConfig(c) && NotChained(c.counters) && Inv(c, ts) && t < |ts| && ts[t] != []
    requires forall l :: l in Wants(ts[t]) ==> Rank(c, l) >= rank
    requires rank <= 4
    ensures CanStep(c, ts, u)
    decreases 4 - rank
  {
    if forall l :: l in Wants(ts[t]) ==> IsFree(ts, l) {
      RunsUnlessWaiting(c, ts, t);
      u := t;
    } else {
      var l :| l in Wants(ts[t]) && !IsFree(ts, l);
      var v: nat :| v < |ts| && l in Held(ts[v]);
      forall m | m in Wants(ts[v]) ensures Rank(c, m) >= rank + 1 {
        WaitsAbove(c, ts[v], l, m);
      }
      u := SomeoneCanStep(c, ts, v, rank + 1);
    }
  }

  /** In every reachable state in which some thread is not idle, some such thread can
      take a step: the gateway never stands still. */
  lemma NoDeadlock(c: Config, run: seq<Threads>, who: seq<nat>, n: nat, t: nat) returns (u: nat)
    requires IsConfig(c) && NotChained(c.counters) && IsRun(c, run, who) && n < |run|
    requires t < |run[n]| && run[n][t] != []
    ensures CanStep(c, run[n], u)
  {
    RunInv(c, run, who, n);
    u := SomeoneCanStep(c, run[n], t, 0);
  }

  // ----- Why counters must not be chained -----

  /** Two counters that read each other. */
  const CHAINED := Config([CounterCfg(1, 0), CounterCfg(0, 1)], [[ToCounter(1)], [ToCounter(0)]])

  /** The stack of a thread that updates counter `k` after `i` steps. */
  function ChainedStack(k: nat, i: nat): Stack
    requires k < 2
  {
    match i
    case 0 => []
    case 1 => [Update(k, WantCounter)]
    case 2 => [Update(k, Locked)]
    case 3 => [Update(k, Published), Dispatch(k, WantDisp)]
    case 4 => [Update(k, Published), Dispatch(k, Entered)]
    case 5 => [Update(k, Published), Dispatch(k, WantLast)]
    case 6 => [Update(k, Published), Dispatch(k, InLast)]
    case 7 => [Update(k, Published), Dispatch(k, Firing(0))]
    case _ => [Update(k, Published), Dispatch(k, Firing(1)), Update(1 - k, WantCounter)]
  }

  /** Thread 0 takes 8 steps, then thread 1 does. */
  function ChainedThreads(i: nat): Threads {
    [ChainedStack(0, if i < 8 then i else 8), ChainedStack(1, if i < 8 then 0 else i - 8)]
  }

  lemma ChainedHeld(k: nat, i: nat)
    requires k < 2 && i <= 8
    ensures Held(ChainedStack(k, i)) <= {Counter(k), Disp(k), Last(k)}
    ensures i == 8 ==> Held(ChainedStack(k, i)) == {Counter(k), Disp(k)}
  {
    var s := ChainedStack(k, i);
    forall l | l in Held(s) ensures l in {Counter(k), Disp(k), Last(k)} && (i == 8 ==> l != Last(k)) {
      var j :| 0 <= j < |s| && l in HeldBy(s[j]);
    }
    if i == 8 {
      assert Counter(k) in HeldBy(s[0]) && Disp(k) in HeldBy(s[1]);
    }
  }

  /** Before it obtains a lock the thread does not hold it. */
  lemma ChainedHolds(k: nat, i: nat)
    requires k < 2 && (i == 1 || i == 3 || i == 5)
    ensures forall l :: l in Wants(ChainedStack(k, i)) ==> l !in Held(ChainedStack(k, i))
  {
    var s := ChainedStack(k, i);
    forall l | l in Held(s) ensures l !in Wants(s) {
      var j :| 0 <= j < |s| && l in HeldBy(s[j]);
    }
  }

  lemma ChainedStep(k: nat, i: nat, ts: Threads)
    requires k < 2 && i < 8 && |ts| == 2 && ts[k] == ChainedStack(k, i)
    requires Held(ts[1 - k]) <= {Counter(1 - k), Disp(1 - k), Last(1 - k)}
    ensures Steps(CHAINED, ts, k, ts[k := ChainedStack(k, i + 1)])
  {
    var s, s' := ts[k], ChainedStack(k, i + 1);
    if i == 1 || i == 3 || i == 5 {
      assert s' == Obtained(s);
      assert Wants(s) == {Counter(k)} || Wants(s) == {Disp(k)} || Wants(s) == {Last(k)};
      ChainedHolds(k, i);
    } else {
      assert i == 0 || GoesOn(CHAINED, s, s');
    }
  }

  /** Without the check of counter_configure two counters could deadlock: each holds
      its own lock while the callback of its name waits for the other one. */
  lemma ChainedCountersDeadlock() returns (run: seq<Threads>, who: seq<nat>)
    ensures IsConfig(CHAINED) && !NotChained(CHAINED.counters)
    ensures IsRun(CHAINED, run, who) && IsWaitCycle(run[|who|], [0, 1, 0])
  {
    assert CHAINED.counters[0].source == CHAINED.counters[1].name;
    run := seq(17, i requires 0 <= i => ChainedThreads(i));
    who := seq(16, i requires 0 <= i => if i < 8 then 0 else 1);
    forall i | 0 <= i < 16 ensures Steps(CHAINED, run[i], who[i], run[i + 1]) {
      var k := who[i];
      ChainedHeld(1 - k, if k == 0 then 0 else 8);
      ChainedStep(k, i - 8 * k, run[i]);
      assert run[i + 1] == run[i][k := run[i + 1][k]];
    }
    ChainedHeld(0, 8);
    ChainedHeld(1, 8);
    assert Counter(1) in Wants(run[16][0]) * Held(run[16][1]);
    assert Counter(0) in Wants(run[16][1]) * Held(run[16][0]);
    var p := [0, 1, 0];
    assert WaitsFor(run[16], p[0], p[1]) && WaitsFor(run[16], p[1], p[2]);
    assert IsWaitCycle(run[16], p);
    assert |run| == |who| + 1 && forall t :: 0 <= t < |run[0]| ==> run[0][t] == [];
  }
}
