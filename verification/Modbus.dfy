/** The write queue of a Modbus slave: outputs are scheduled by other threads, the
    polling thread writes them, and the device may apply a write it reports as failed. */
module Modbus {
  import opened ModbusWalk

  /** An output of a slave; a register or coil of its own, or one bit of a register
      that it may share with other outputs of its block. */
  datatype Output = Plain | Bitmask(block: nat, reg: nat, bit: nat)

  predicate SameRegister(a: Output, b: Output) {
    a.Bitmask? && b.Bitmask? && a.block == b.block && a.reg == b.reg
  }

  /** What is written for a value: `on` is the test of a bit, `wire` the encoding of
      the other types with scale, offset, rounding and limits. */
  datatype Config<!F, !W> = Config(outputs: seq<Output>, bases: seq<nat>, on: F -> bool, wire: (nat, F) -> W)

  /** `base` is the first output that shares the register of output `v`. */
  ghost predicate IsBase(outputs: seq<Output>, v: nat, base: nat) {
    && v < |outputs| && base <= v && (base == v || SameRegister(outputs[base], outputs[v]))
    && forall b :: 0 <= b < base ==> !SameRegister(outputs[b], outputs[v])
  }

  /** The search of block_configure for the owner of the shared register image. */
  method ResolveBase(outputs: seq<Output>, v: nat) returns (base: nat)
    requires v < |outputs|
    ensures IsBase(outputs, v, base)
  {
    base := v;
    if outputs[v].Bitmask? {
      for b := 0 to v
        invariant base == v && forall c :: 0 <= c < b ==> !SameRegister(outputs[c], outputs[v])
      {
        if SameRegister(outputs[b], outputs[v]) {
          return b;
        }
      }
    }
  }

  /** No two outputs are the same bit of a register. */
  ghost predicate IsConfig<F, W>(c: Config<F, W>) {
    && |c.bases| == |c.outputs|
    && (forall v :: 0 <= v < |c.outputs| ==> IsBase(c.outputs, v, c.bases[v]))
    && (forall u, v :: 0 <= u < v < |c.outputs| && SameRegister(c.outputs[u], c.outputs[v]) ==>
          c.outputs[u].bit != c.outputs[v].bit)
  }

  /** Outputs of one register have one image, and of different ones different images. */
  lemma BasesShareRegisters<F, W>(c: Config<F, W>, u: nat, v: nat)
    requires IsConfig(c) && u < |c.outputs| && v < |c.outputs| && u != v
    ensures c.bases[u] == c.bases[v] <==> SameRegister(c.outputs[u], c.outputs[v])
  {
    assert IsBase(c.outputs, u, c.bases[u]) && IsBase(c.outputs, v, c.bases[v]);
  }

  /** What is queued: the flags, the values, and the register images of the bit outputs. */
  datatype Queue<F> = Queue(pending: seq<bool>, value: seq<F>, image: seq<set<nat>>)

  ghost predicate Shaped<F, W>(c: Config<F, W>, q: Queue<F>) {
    |q.pending| == |q.value| == |q.image| == |c.outputs| == |c.bases|
  }

  /** write_schedule. */
  function Scheduled<F>(q: Queue<F>, v: nat, f: F): Queue<F>
    requires v < |q.pending| == |q.value|
  {
    q.(pending := q.pending[v := true], value := q.value[v := f])
  }

  function SetBit(image: set<nat>, bit: nat, on: bool): set<nat> {
    if on then image + {bit} else image - {bit}
  }

  /** The start of write_execute: the value is taken and the image updated. */
  function Taken<F, W>(c: Config<F, W>, q: Queue<F>, v: nat): Queue<F>
    requires v < |q.pending| == |q.value| == |c.outputs| == |c.bases| && c.bases[v] < |q.image|
  {
    var base := c.bases[v];
    q.(pending := q.pending[v := false],
       image := if c.outputs[v].Bitmask?
                then q.image[base := SetBit(q.image[base], c.outputs[v].bit, c.on(q.value[v]))] else q.image)
  }

  /** After a failed write: the value stays queued unless a newer one is. */
  function Retried<F>(q: Queue<F>, v: nat, f: F): Queue<F>
    requires v < |q.pending| == |q.value|
  {
    if q.pending[v] then q else Scheduled(q, v, f)
  }

  /** What a register of the device holds. */
  datatype Content<W> = Unknown | Word(word: W) | Bits(bits: set<nat>)

  /** Where a request writes: the register or coil of an output alone, or a register of bits. */
  datatype Target = Own(v: nat) | Register(block: nat, reg: nat)

  /** The request for a value that has been taken: where and what. */
  function Request<F, W>(c: Config<F, W>, q: Queue<F>, v: nat, f: F): (Target, Content<W>)
    requires v < |c.outputs| == |c.bases| && c.bases[v] < |q.image|
  {
    match c.outputs[v]
    case Plain => (Own(v), Word(c.wire(v, f)))
    case Bitmask(block, reg, _) => (Register(block, reg), Bits(q.image[c.bases[v]]))
  }

  // ----- The code -----

  /** A request that was sent: the output, where it goes, what is written, the reply. */
  datatype Sent<W> = Nothing | Sent(v: nat, target: Target, content: Content<W>, reply: Reply)

  class Slave<F, W> {
    const c: Config<F, W>
    const order: seq<nat>         // the output list
    const interval: int
    var pending: seq<bool>
    var value: seq<F>
    var image: seq<set<nat>>
    var current: nat              // position in the list
    var nextWrite: int

    ghost predicate Valid()
      reads this
    {
      && IsConfig(c) && Shaped(c, Now()) && current <= |order|
      && forall i :: 0 <= i < |order| ==> order[i] < |c.outputs|
    }

    ghost function Now(): Queue<F>
      reads this
    {
      Queue(pending, value, image)
    }

    constructor (c: Config<F, W>, order: seq<nat>, interval: int, zero: F)
      requires IsConfig(c) && forall i :: 0 <= i < |order| ==> order[i] < |c.outputs|
      ensures Valid() && this.c == c && this.order == order && current == |order| && nextWrite == 0
      ensures forall v :: 0 <= v < |c.outputs| ==> !pending[v] && image[v] == {}
    {
      this.c, this.order, this.interval := c, order, interval;
      pending := seq(|c.outputs|, _ => false);
      value := seq(|c.outputs|, _ => zero);
      image := seq(|c.outputs|, _ => {});
      current, nextWrite := |order|, 0;
    }

    method WriteSchedule(v: nat, f: F)
      requires Valid() && v < |c.outputs|
      modifies this`pending, this`value
      ensures Valid() && Now() == Scheduled(old(Now()), v, f)
    {
      value := value[v := f];
      pending := pending[v := true];
    }

    /** write_execute up to the request. */
    method WriteTake(v: nat) returns (taken: bool, f: F, target: Target, content: Content<W>)
      requires Valid() && v < |c.outputs|
      modifies this`pending, this`image
      ensures Valid() && taken == old(pending[v]) && f == old(value[v])
      ensures !taken ==> Now() == old(Now())
      ensures taken ==> Now() == Taken(c, old(Now()), v) && (target, content) == Request(c, Now(), v, f)
    {
      taken, f := pending[v], value[v];
      pending := pending[v := false];
      target, content := Own(v), Unknown;
      if !taken {
        assert pending == old(pending);
        return;
      }
      if c.outputs[v].Bitmask? {
        var base := c.bases[v];
        if c.on(f) {
          image := image[base := image[base] + {c.outputs[v].bit}];
        } else {
          image := image[base := image[base] - {c.outputs[v].bit}];
        }
        target, content := Register(c.outputs[v].block, c.outputs[v].reg), Bits(image[base]);
      } else {
        content := Word(c.wire(v, f));
      }
    }

    /** write_execute after a failed request: a newer value wins. */
    method WriteRetry(v: nat, f: F)
      requires Valid() && v < |c.outputs|
      modifies this`pending, this`value
      ensures Valid() && Now() == Retried(old(Now()), v, f)
    {
      if !pending[v] {
        value := value[v := f];
        pending := pending[v := true];
      }
    }

    /** slave_task_write: the next pending output of the list is written.  `reply` is
        what the request yields and `clock` the time after it. */
    method SlaveTaskWrite(now: int, reply: Reply, clock: int) returns (sent: Sent<W>)
      requires Valid()
      modifies this
      ensures Valid()
      ensures old(nextWrite) > now ==> sent == Nothing && Now() == old(Now()) && current == old(current)
      ensures nextWrite == if sent.Sent? && sent.reply.Failed? then clock + interval else old(nextWrite)
      ensures old(nextWrite) <= now ==>
        && old(current) <= current
        && (forall i :: old(current) <= i < current - (if sent.Sent? then 1 else 0) ==> !old(pending)[order[i]])
        && (sent.Nothing? ==> current == |order| && Now() == old(Now()))
      ensures sent.Sent? ==>
        && sent.reply == reply && old(current) < current && sent.v == order[current - 1] && old(pending)[sent.v]
        && (sent.target, sent.content) == Request(c, Taken(c, old(Now()), sent.v), sent.v, old(value)[sent.v])
        && Now() == if reply.Done? then Taken(c, old(Now()), sent.v)
                    else Retried(Taken(c, old(Now()), sent.v), sent.v, old(value)[sent.v])
    {
      sent := Nothing;
      if nextWrite > now {
        return;
      }
      while current < |order|
        invariant Valid() && old(current) <= current && Now() == old(Now()) && nextWrite == old(nextWrite)
        invariant forall i :: old(current) <= i < current ==> !old(pending)[order[i]]
        decreases |order| - current
      {
        var v := order[current];
        current := current + 1;
        var taken, f, target, content := WriteTake(v);
        if taken {
          sent := Sent(v, target, content, reply);
          if reply.Failed? {
            WriteRetry(v, f);
            nextWrite := clock + interval;
          }
          return;
        }
      }
    }

    /** The writing part of master_task for this slave. */
    method WriteTurn(now: int, reply: Reply, clock: int) returns (sent: Sent<W>)
      requires Valid()
      modifies this
      ensures Valid()
      ensures sent.Sent? ==> current > 0 && sent.v == order[current - 1] && sent.reply == reply
      ensures sent.Nothing? ==> current == 0
      ensures sent.Nothing? && old(nextWrite) <= now ==>
        forall i :: old(current) <= i < |order| ==> !old(pending)[order[i]]
      ensures (Walk(current, nextWrite), if sent.Sent? then Attempt(current - 1) else NoAttempt)
        == AfterTurn(order, interval, old(Walk(current, nextWrite)), Turn(now, clock, reply, old(pending)))
    {
      ghost var flags, first := pending, FirstPending(order, pending, current);
      sent := SlaveTaskWrite(now, reply, clock);
      if sent.Nothing? {
        assert first < |order| ==> IsPending(order, flags, first);
        current := 0;
      } else {
        assert IsPending(order, flags, current - 1);
      }
    }
  }

  // ----- The threads -----

  /** The request under way; `index` is the position of its value among those scheduled. */
  datatype Flight<F> = Idle | Flying(v: nat, f: F, index: nat)

  /** `sched` lists the values scheduled for each output, `sent` those that have been
      attempted, and `tried` how many had been scheduled before the newest one at each
      attempt; all three only record. */
  datatype State<F, W> = State(
    q: Queue<F>, flight: Flight<F>, device: map<Target, Content<W>>,
    sched: seq<seq<F>>, sent: seq<seq<F>>, tried: seq<seq<nat>>
  )

  datatype Action<F> =
    | Schedule(v: nat, f: F)
    | Take(v: nat)
    | Finish(reply: Reply, applied: bool)     // a failed write may have been applied

  ghost predicate Enabled<F, W>(c: Config<F, W>, s: State<F, W>, a: Action<F>)
    requires Shaped(c, s.q)
  {
    match a
    case Schedule(v, _) => v < |c.outputs|
    case Take(v) => v < |c.outputs| && s.q.pending[v] && s.flight.Idle?
    case Finish(reply, applied) => s.flight.Flying? && (reply.Done? ==> applied)
  }

  ghost predicate IsState<F, W>(c: Config<F, W>, s: State<F, W>) {
    && IsConfig(c) && Shaped(c, s.q) && |s.sched| == |s.sent| == |s.tried| == |c.outputs|
    && (s.flight.Flying? ==> s.flight.v < |c.outputs|)
    && (forall v :: 0 <= v < |c.outputs| && s.q.pending[v] ==> s.sched[v] != [])
  }

  ghost function Do<F, W>(c: Config<F, W>, s: State<F, W>, a: Action<F>): State<F, W>
    requires IsState(c, s) && Enabled(c, s, a)
  {
    match a
    case Schedule(v, f) => s.(q := Scheduled(s.q, v, f), sched := s.sched[v := s.sched[v] + [f]])
    case Take(v) =>
      s.(q := Taken(c, s.q, v), flight := Flying(v, s.q.value[v], |s.sched[v]| - 1),
         sent := s.sent[v := s.sent[v] + [s.q.value[v]]], tried := s.tried[v := s.tried[v] + [|s.sched[v]| - 1]])
    case Finish(reply, applied) =>
      var v := s.flight.v;
      var (target, content) := Request(c, s.q, v, s.flight.f);
      s.(q := if reply.Done? then s.q else Retried(s.q, v, s.flight.f), flight := Idle,
         device := if applied then s.device[target := content] else s.device)
  }

  function Last<T>(s: seq<T>): T
    requires s != []
  {
    s[|s| - 1]
  }

  /** What is queued or under way for an output is its last value, unless a newer one
      is queued, and attempts go forward only. */
  ghost predicate NewestWins<F, W>(c: Config<F, W>, s: State<F, W>, v: nat)
    requires IsState(c, s) && v < |c.outputs|
  {
    && (s.q.pending[v] ==> s.q.value[v] == Last(s.sched[v]))
    && |s.sent[v]| == |s.tried[v]|
    && (forall i :: 0 <= i < |s.tried[v]| ==> s.tried[v][i] < |s.sched[v]| && s.sent[v][i] == s.sched[v][s.tried[v][i]])
    && (forall i, j :: 0 <= i < j < |s.tried[v]| ==> s.tried[v][i] <= s.tried[v][j])
    && (s.flight.Flying? && s.flight.v == v ==>
          && s.tried[v] != [] && Last(s.tried[v]) == s.flight.index && s.flight.f == s.sched[v][s.flight.index])
    && (s.sched[v] != [] && !s.q.pending[v] ==> s.tried[v] != [] && Last(s.tried[v]) == |s.sched[v]| - 1)
  }

  /** The value of a bit in its image: on if the last attempted value is. */
  ghost predicate BitOn<F, W>(c: Config<F, W>, s: State<F, W>, v: nat)
    requires IsState(c, s) && v < |c.outputs|
  {
    s.tried[v] != [] && Last(s.tried[v]) < |s.sched[v]| && c.on(s.sched[v][Last(s.tried[v])])
  }

  ghost predicate ImageFollows<F, W>(c: Config<F, W>, s: State<F, W>)
    requires IsState(c, s)
  {
    && (forall v :: 0 <= v < |c.outputs| && c.outputs[v].Bitmask? ==>
          (c.outputs[v].bit in s.q.image[c.bases[v]] <==> BitOn(c, s, v)))
    && (forall b, x :: 0 <= b < |c.outputs| && x in s.q.image[b] ==> IsMapped(c, b, x))
  }

  /** Some output is bit `x` of the register with base `b`. */
  ghost predicate IsMapped<F, W>(c: Config<F, W>, b: nat, x: nat)
    requires |c.bases| == |c.outputs|
  {
    exists v :: 0 <= v < |c.outputs| && c.outputs[v].Bitmask? && c.bases[v] == b && c.outputs[v].bit == x
  }

  ghost predicate Busy<F, W>(c: Config<F, W>, s: State<F, W>, v: nat)
    requires IsState(c, s) && v < |c.outputs|
  {
    s.q.pending[v] || (s.flight.Flying? && s.flight.v == v)
  }

  /** The output is a bit of the register. */
  predicate IsBitOf(o: Output, block: nat, reg: nat) {
    o.Bitmask? && o.block == block && o.reg == reg
  }

  /** Some bit of the register is queued or under way. */
  ghost predicate RegisterBusy<F, W>(c: Config<F, W>, s: State<F, W>, block: nat, reg: nat)
    requires IsState(c, s)
  {
    exists v :: 0 <= v < |c.outputs| && IsBitOf(c.outputs[v], block, reg) && Busy(c, s, v)
  }

  ghost predicate Holds<W>(device: map<Target, Content<W>>, target: Target, content: Content<W>) {
    target in device && device[target] == content
  }

  /** The device holds what was written last, or a write is queued or under way. */
  ghost predicate DeviceFollows<F, W>(c: Config<F, W>, s: State<F, W>, v: nat)
    requires IsState(c, s) && v < |c.outputs|
  {
    s.sched[v] != [] ==>
      match c.outputs[v]
      case Plain => Busy(c, s, v) || Holds(s.device, Own(v), Word(c.wire(v, Last(s.sched[v]))))
      case Bitmask(block, reg, _) =>
        RegisterBusy(c, s, block, reg) || Holds(s.device, Register(block, reg), Bits(s.q.image[c.bases[v]]))
  }

  ghost predicate Inv<F, W>(c: Config<F, W>, s: State<F, W>) {
    && IsState(c, s) && ImageFollows(c, s)
    && forall v :: 0 <= v < |c.outputs| ==> NewestWins(c, s, v) && DeviceFollows(c, s, v)
  }

  lemma StepState<F, W>(c: Config<F, W>, s: State<F, W>, a: Action<F>)
    requires IsState(c, s) && Enabled(c, s, a) && (s.flight.Flying? ==> s.sched[s.flight.v] != [])
    ensures IsState(c, Do(c, s, a))
  {
  }

  lemma StepNewest<F, W>(c: Config<F, W>, s: State<F, W>, a: Action<F>, v: nat)
    requires Inv(c, s) && Enabled(c, s, a) && v < |c.outputs| && IsState(c, Do(c, s, a))
    ensures NewestWins(c, Do(c, s, a), v)
  {
    assert NewestWins(c, s, v);
  }

  lemma TakeImage<F, W>(c: Config<F, W>, s: State<F, W>, v: nat, u: nat)
    requires Inv(c, s) && Enabled(c, s, Take(v)) && u < |c.outputs| && c.outputs[u].Bitmask?
    requires IsState(c, Do(c, s, Take(v)))
    ensures c.outputs[u].bit in Do(c, s, Take(v)).q.image[c.bases[u]] <==> BitOn(c, Do(c, s, Take(v)), u)
  {
    var s' := Do(c, s, Take(v));
    assert NewestWins(c, s, v) && NewestWins(c, s, u);
    assert BitOn(c, s, u) <==> c.outputs[u].bit in s.q.image[c.bases[u]];
    if u != v {
      BasesShareRegisters(c, u, v);
    }
  }

  lemma StepImage<F, W>(c: Config<F, W>, s: State<F, W>, a: Action<F>)
    requires Inv(c, s) && Enabled(c, s, a) && IsState(c, Do(c, s, a))
    ensures ImageFollows(c, Do(c, s, a))
  {
    var s' := Do(c, s, a);
    forall u | 0 <= u < |c.outputs| && c.outputs[u].Bitmask?
      ensures c.outputs[u].bit in s'.q.image[c.bases[u]] <==> BitOn(c, s', u)
    {
      assert NewestWins(c, s, u);
      if a.Take? {
        TakeImage(c, s, a.v, u);
      } else {
        assert BitOn(c, s', u) <==> BitOn(c, s, u);
      }
    }
    forall b, x | 0 <= b < |c.outputs| && x in s'.q.image[b] ensures IsMapped(c, b, x) {
      if a.Take? && x !in s.q.image[b] {
        assert c.outputs[a.v].Bitmask? && c.bases[a.v] == b && c.outputs[a.v].bit == x;
      }
    }
  }

  /** The register stays busy, unless the request that has been under way was the last
      one and has left the image in the device. */
  lemma FinishKeepsBusy<F, W>(c: Config<F, W>, s: State<F, W>, a: Action<F>, block: nat, reg: nat)
    requires IsState(c, s) && Enabled(c, s, a) && a.Finish? && IsState(c, Do(c, s, a))
    requires RegisterBusy(c, s, block, reg)
    ensures RegisterBusy(c, Do(c, s, a), block, reg) || (IsBitOf(c.outputs[s.flight.v], block, reg) && a.reply.Done?)
  {
    var s' := Do(c, s, a);
    var u :| 0 <= u < |c.outputs| && IsBitOf(c.outputs[u], block, reg) && Busy(c, s, u);
    assert u != s.flight.v || a.reply.Failed? ==> Busy(c, s', u);
  }

  lemma FinishDevice<F, W>(c: Config<F, W>, s: State<F, W>, a: Action<F>, v: nat)
    requires Inv(c, s) && Enabled(c, s, a) && a.Finish? && v < |c.outputs| && IsState(c, Do(c, s, a))
    ensures DeviceFollows(c, Do(c, s, a), v)
  {
    var o, w := c.outputs[v], s.flight.v;
    assert NewestWins(c, s, w) && NewestWins(c, s, v) && DeviceFollows(c, s, v);
    assert IsBase(c.outputs, v, c.bases[v]) && IsBase(c.outputs, w, c.bases[w]);
    if w != v {
      BasesShareRegisters(c, v, w);
    }
    if o.Bitmask? && RegisterBusy(c, s, o.block, o.reg) {
      FinishKeepsBusy(c, s, a, o.block, o.reg);
    }
  }

  lemma StepDevice<F, W>(c: Config<F, W>, s: State<F, W>, a: Action<F>, v: nat)
    requires Inv(c, s) && Enabled(c, s, a) && v < |c.outputs| && IsState(c, Do(c, s, a))
    ensures DeviceFollows(c, Do(c, s, a), v)
  {
    var s' := Do(c, s, a);
    assert DeviceFollows(c, s, v);
    if a.Finish? {
      FinishDevice(c, s, a, v);
    } else {
      assert forall u :: 0 <= u < |c.outputs| && Busy(c, s, u) ==> Busy(c, s', u);
      if c.outputs[v].Bitmask? && a.v != v {
        BasesShareRegisters(c, a.v, v);
      }
      assert Busy(c, s', a.v);
    }
  }

  ghost predicate Init<F, W>(c: Config<F, W>, s: State<F, W>) {
    && IsState(c, s) && s.flight.Idle?
    && forall v :: 0 <= v < |c.outputs| ==>
         !s.q.pending[v] && s.q.image[v] == {} && s.sched[v] == [] && s.sent[v] == [] && s.tried[v] == []
  }

  ghost predicate IsRun<F, W>(c: Config<F, W>, run: seq<State<F, W>>, steps: seq<Action<F>>) {
    && |run| == |steps| + 1 && Init(c, run[0]) && (forall i :: 0 <= i < |run| ==> IsState(c, run[i]))
    && (forall i :: 0 <= i < |steps| ==> Enabled(c, run[i], steps[i]) && run[i + 1] == Do(c, run[i], steps[i]))
  }

  lemma StepInv<F, W>(c: Config<F, W>, s: State<F, W>, a: Action<F>)
    requires Inv(c, s) && Enabled(c, s, a)
    ensures IsState(c, Do(c, s, a)) && Inv(c, Do(c, s, a))
  {
    assert s.flight.Flying? ==> NewestWins(c, s, s.flight.v);
    StepState(c, s, a);
    StepImage(c, s, a);
    forall v | 0 <= v < |c.outputs| ensures NewestWins(c, Do(c, s, a), v) && DeviceFollows(c, Do(c, s, a), v) {
      StepNewest(c, s, a, v);
      StepDevice(c, s, a, v);
    }
  }

  lemma {:induction false} RunInv<F, W>(c: Config<F, W>, run: seq<State<F, W>>, steps: seq<Action<F>>, n: nat)
    requires IsRun(c, run, steps) && n < |run|
    ensures Inv(c, run[n])
  {
    if n > 0 {
      RunInv(c, run, steps, n - 1);
      assert IsState(c, run[n]) && run[n] == Do(c, run[n - 1], steps[n - 1]);
      StepInv(c, run[n - 1], steps[n - 1]);
    }
  }

  /** In every interleaving each attempt of an output sends the value that was the newest
      one scheduled for it at that time, so the values are attempted in the order in
      which they were scheduled: never an older one after a newer. */
  lemma AttemptsGoForward<F, W>(
    c: Config<F, W>, run: seq<State<F, W>>, steps: seq<Action<F>>, n: nat, v: nat, i: nat, j: nat
  )
    requires IsRun(c, run, steps) && n < |run| && v < |c.outputs| && i < j < |run[n].sent[v]|
    ensures
      var s := run[n];
      && |s.tried[v]| == |s.sent[v]| && s.tried[v][i] <= s.tried[v][j] < |s.sched[v]|
      && s.sent[v][i] == s.sched[v][s.tried[v][i]] && s.sent[v][j] == s.sched[v][s.tried[v][j]]
  {
    RunInv(c, run, steps, n);
    assert NewestWins(c, run[n], v);
  }

  /** An attempt is recorded when it is made: the newest value scheduled by then, which
      is also the one that goes out. */
  lemma AttemptIsNewest<F, W>(c: Config<F, W>, run: seq<State<F, W>>, steps: seq<Action<F>>, n: nat, v: nat)
    requires IsRun(c, run, steps) && n < |steps| && steps[n] == Take(v)
    ensures v < |c.outputs| && run[n].sched[v] != []
    ensures run[n + 1].sent[v] == run[n].sent[v] + [Last(run[n].sched[v])]
    ensures run[n + 1].flight.Flying? && run[n + 1].flight.v == v && run[n + 1].flight.f == Last(run[n].sched[v])
  {
    RunInv(c, run, steps, n);
    assert IsState(c, run[n + 1]) && Enabled(c, run[n], steps[n]) && run[n + 1] == Do(c, run[n], steps[n]);
    assert NewestWins(c, run[n], v);
  }

  /** The bits that are on in a register: those whose last scheduled value is on. */
  ghost function BitsOn<F, W>(c: Config<F, W>, s: State<F, W>, block: nat, reg: nat): set<nat>
    requires IsState(c, s)
  {
    set v | 0 <= v < |c.outputs| && IsBitOn(c, s, block, reg, v) :: c.outputs[v].bit
  }

  ghost predicate IsBitOn<F, W>(c: Config<F, W>, s: State<F, W>, block: nat, reg: nat, v: nat)
    requires IsState(c, s) && v < |c.outputs|
  {
    IsBitOf(c.outputs[v], block, reg) && s.sched[v] != [] && c.on(Last(s.sched[v]))
  }

  /** Whenever nothing is queued or under way, the device holds the last scheduled
      value of every output that has its own register. */
  lemma PlainWritesConverge<F, W>(c: Config<F, W>, run: seq<State<F, W>>, steps: seq<Action<F>>, n: nat, v: nat)
    requires IsRun(c, run, steps) && n < |run| && v < |c.outputs| && c.outputs[v].Plain?
    requires !Busy(c, run[n], v) && run[n].sched[v] != []
    ensures Own(v) in run[n].device && run[n].device[Own(v)] == Word(c.wire(v, Last(run[n].sched[v])))
  {
    RunInv(c, run, steps, n);
    assert DeviceFollows(c, run[n], v);
  }

  /** Whenever no bit of a register is queued or under way, the register holds the
      image of the last scheduled values of all its bits, whatever writes failed. */
  lemma BitWritesConverge<F, W>(
    c: Config<F, W>, run: seq<State<F, W>>, steps: seq<Action<F>>, n: nat, block: nat, reg: nat, v: nat
  )
    requires IsRun(c, run, steps) && n < |run| && v < |c.outputs| && IsBitOf(c.outputs[v], block, reg)
    requires !RegisterBusy(c, run[n], block, reg) && run[n].sched[v] != []
    ensures Register(block, reg) in run[n].device
    ensures run[n].device[Register(block, reg)] == Bits(BitsOn(c, run[n], block, reg))
  {
    RunInv(c, run, steps, n);
    var s, b := run[n], c.bases[v];
    assert DeviceFollows(c, s, v);
    forall u | 0 <= u < |c.outputs| && IsBitOf(c.outputs[u], block, reg)
      ensures c.bases[u] == b && (c.outputs[u].bit in s.q.image[b] <==> IsBitOn(c, s, block, reg, u))
    {
      if u != v {
        BasesShareRegisters(c, u, v);
      }
      assert NewestWins(c, s, u) && !Busy(c, s, u);
    }
    assert IsBase(c.outputs, v, b);
    forall x | x in s.q.image[b] ensures x in BitsOn(c, s, block, reg) {
      assert IsMapped(c, b, x);
      MappedIsBitOf(c, b, x, v);
    }
    assert s.q.image[b] == BitsOn(c, s, block, reg);
  }

  /** The bits of an image belong to the register of the image. */
  lemma MappedIsBitOf<F, W>(c: Config<F, W>, b: nat, x: nat, v: nat)
    requires IsConfig(c) && v < |c.outputs| && c.outputs[v].Bitmask? && c.bases[v] == b && IsMapped(c, b, x)
    ensures
      var o := c.outputs[v];
      exists u :: 0 <= u < |c.outputs| && IsBitOf(c.outputs[u], o.block, o.reg) && c.outputs[u].bit == x
  {
    var u :| 0 <= u < |c.outputs| && c.outputs[u].Bitmask? && c.bases[u] == b && c.outputs[u].bit == x;
    if u != v {
      BasesShareRegisters(c, u, v);
    }
  }
}
