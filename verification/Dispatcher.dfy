/** The dispatcher of one value name: producers, the watchdog and readers race for
    the stored value, and the outputs follow it. */
module Dispatcher {

  /** A number together with its validity. */
  datatype Data<N> = Data(number: N, valid: bool)

  /** The state of a name; a deadline of 0 means disarmed. */
  datatype Value<N> = Value(last: Data<N>, deadline: int, timedOut: bool, received: bool)

  /** A registered callback, or a reserved slot that was never registered. */
  datatype Output = Unregistered | Output(owner: nat)

  /** A configured name; `timeout` is 0 if its data never gets stale. */
  datatype Name<!N> = Name(init: N, timeout: nat, producer: nat, outputs: seq<Output>, finite: N -> bool)

  function Initial<N>(name: Name<N>): Value<N> {
    Value(Data(name.init, false), 0, false, false)
  }

  /** What a dispatch at time `now` makes of the value. */
  function Stored<N>(name: Name<N>, v: Value<N>, now: int, data: Data<N>): Value<N> {
    if data.valid
    then Value(data, if name.timeout > 0 then now + name.timeout else v.deadline, false, true)
    else v.(last := data)
  }

  predicate IsDue<N>(v: Value<N>, now: int) {
    v.deadline != 0 && now >= v.deadline
  }

  /** What an expired deadline makes of the value. */
  function Expired<N>(name: Name<N>, v: Value<N>): Value<N> {
    v.(last := Data(name.init, false), deadline := 0, timedOut := true)
  }

  /** Startup arms a name that has not been armed by data. */
  function Armed<N>(name: Name<N>, v: Value<N>, now: int): Value<N> {
    if name.timeout > 0 && v.deadline == 0 then v.(deadline := now + name.timeout) else v
  }

  /** Whether an output gets what `source` dispatches. */
  predicate Gets(o: Output, source: nat) {
    o.Output? && o.owner != source
  }

  /** The inboxes after the first `k` callbacks of a dispatch. */
  function Fired<N>(name: Name<N>, inbox: seq<seq<Data<N>>>, source: nat, data: Data<N>, k: nat): seq<seq<Data<N>>>
    requires |inbox| == |name.outputs|
  {
    seq(|inbox|, i requires 0 <= i < |inbox| =>
      if i < k && Gets(name.outputs[i], source) then inbox[i] + [data] else inbox[i])
  }

  /** Every registered output of another owner than `source` gets the data, and nobody
      else gets anything. */
  ghost predicate OthersGet<N>(
    outputs: seq<Output>, before: seq<seq<Data<N>>>, after: seq<seq<Data<N>>>, source: nat, data: Data<N>
  ) {
    && |before| == |after| == |outputs|
    && (forall i, o :: 0 <= i < |outputs| && outputs[i] == Output(o) && o != source ==> after[i] == before[i] + [data])
    && (forall i :: 0 <= i < |outputs| && outputs[i] in {Unregistered, Output(source)} ==> after[i] == before[i])
  }

  // ----- The code -----

  class Dispatcher<N> {
    const name: Name<N>
    var value: Value<N>
    var inbox: seq<seq<Data<N>>>    // what each callback was called with

    ghost predicate Valid()
      reads this
    {
      |inbox| == |name.outputs|
    }

    constructor (name: Name<N>)
      ensures Valid() && this.name == name && value == Initial(name)
      ensures forall i :: 0 <= i < |inbox| ==> inbox[i] == []
    {
      this.name, value := name, Initial(name);
      inbox := seq(|name.outputs|, _ => []);
    }

    /** fire_cbs. */
    method FireCbs(source: nat, data: Data<N>)
      requires Valid()
      modifies this`inbox
      ensures Valid() && inbox == Fired(name, old(inbox), source, data, |name.outputs|)
      ensures OthersGet(name.outputs, old(inbox), inbox, source, data)
    {
      for i := 0 to |name.outputs|
        invariant Valid() && inbox == Fired(name, old(inbox), source, data, i)
      {
        if name.outputs[i].Output? && name.outputs[i].owner != source {
          inbox := inbox[i := inbox[i] + [data]];
        }
      }
    }

    /** uvrgw_conf_disp_val. */
    method DispVal(source: nat, data: Data<N>, now: int)
      requires Valid()
      modifies this
      ensures Valid()
      ensures !name.finite(data.number) ==> value == old(value) && inbox == old(inbox)
      ensures name.finite(data.number) ==>
        value == Stored(name, old(value), now, data) && inbox == Fired(name, old(inbox), source, data, |name.outputs|)
      ensures name.finite(data.number) ==> value.last == data && OthersGet(name.outputs, old(inbox), inbox, source, data)
      ensures name.finite(data.number) && data.valid ==>
        && value.received && !value.timedOut
        && value.deadline == if name.timeout > 0 then now + name.timeout else old(value.deadline)
      ensures name.finite(data.number) && !data.valid ==> value == old(value).(last := data)
    {
      if !name.finite(data.number) {
        return;
      }
      value := value.(last := data);
      if data.valid {
        value := value.(received := true);
        if name.timeout > 0 {
          value := value.(deadline := now + name.timeout);
        }
        if value.timedOut {
          value := value.(timedOut := false);
        }
      }
      FireCbs(source, data);
    }

    /** uvrgw_conf_get_val. */
    method GetVal() returns (valid: bool, number: N)
      ensures Data(number, valid) == value.last
    {
      valid := value.last.valid;
      number := value.last.number;
    }

    /** watchdog_check. */
    method WatchdogCheck(now: int)
      requires Valid() && name.timeout > 0
      modifies this
      ensures Valid()
      ensures old(value.deadline) == 0 || now < old(value.deadline) ==> value == old(value) && inbox == old(inbox)
      ensures old(value.deadline) != 0 && now >= old(value.deadline) ==>
        value == Expired(name, old(value)) == Value(Data(name.init, false), 0, true, old(value.received))
        && inbox == Fired(name, old(inbox), name.producer, Data(name.init, false), |name.outputs|)
        && OthersGet(name.outputs, old(inbox), inbox, name.producer, Data(name.init, false))
    {
      if value.deadline != 0 && now >= value.deadline {
        value := value.(deadline := 0, timedOut := true);
        value := value.(last := Data(name.init, false));
        FireCbs(name.producer, Data(name.init, false));
      }
    }

    /** uvrgw_conf_startup for this name. */
    method Startup(now: int)
      modifies this`value
      ensures value == Armed(name, old(value), now)
      ensures value == old(value).(deadline :=
        if name.timeout > 0 && old(value.deadline) == 0 then now + name.timeout else old(value.deadline))
    {
      if name.timeout > 0 {
        if value.deadline == 0 {
          value := value.(deadline := now + name.timeout);
        }
      }
    }
  }

  // ----- The threads -----

  /** What a thread does under the dispatch lock. */
  datatype Op<N> =
    | Dispatch(source: nat, data: Data<N>)
    | Check(now: int)
    | Start(now: int)

  /** How far the holder of the dispatch lock is.  `Half` is inside the inner lock,
      with the number stored but not its validity. */
  datatype Stage = Locked | Half | Firing(next: nat) | Done

  datatype Lock<N> = Free | Held(op: Op<N>, stage: Stage)

  /** What can happen to the deadline. */
  datatype Event = Fresh(time: int) | Arming(time: int) | Reset(time: int)

  /** `history` lists what was stored and by whom, `events` what happened to the
      deadline; both only record. */
  datatype State<N> = State(
    value: Value<N>, lock: Lock<N>, started: bool, inbox: seq<seq<Data<N>>>,
    history: seq<(nat, Data<N>)>, events: seq<Event>
  )

  datatype Action<N> =
    | Acquire(op: Op<N>)
    | StoreNumber            // under both locks
    | StoreRest(now: int)    // validity and deadline; `now` is the clock of a dispatch
    | Skip                   // a check that is not due
    | Arm
    | Fire
    | Release

  /** What the holder of the lock stores. */
  function Storing<N>(name: Name<N>, op: Op<N>): (nat, Data<N>) {
    match op
    case Dispatch(source, data) => (source, data)
    case _ => (name.producer, Data(name.init, false))
  }

  predicate Stores<N>(v: Value<N>, op: Op<N>) {
    op.Dispatch? || (op.Check? && IsDue(v, op.now))
  }

  predicate Enabled<N>(name: Name<N>, s: State<N>, a: Action<N>) {
    match a
    case Acquire(op) =>
      && s.lock.Free?
      && (match op
          case Dispatch(_, data) => name.finite(data.number) && (name.timeout > 0 ==> data.valid)
          case Check(now) => s.started && name.timeout > 0 && now >= 0
          case Start(now) => !s.started && now >= 0)
    case StoreNumber => s.lock.Held? && s.lock.stage == Locked && Stores(s.value, s.lock.op)
    case StoreRest(now) => s.lock.Held? && s.lock.stage == Half && now >= 0
    case Skip => s.lock.Held? && s.lock.stage == Locked && s.lock.op.Check? && !Stores(s.value, s.lock.op)
    case Arm => s.lock.Held? && s.lock.stage == Locked && s.lock.op.Start?
    case Fire => s.lock.Held? && s.lock.stage.Firing? && s.lock.stage.next < |name.outputs|
    case Release => s.lock.Held? && (s.lock.stage == Done || s.lock.stage == Firing(|name.outputs|))
  }

  function Do<N>(name: Name<N>, s: State<N>, a: Action<N>): State<N>
    requires Enabled(name, s, a) && |s.inbox| == |name.outputs|
  {
    match a
    case Acquire(op) => s.(lock := Held(op, Locked))
    case StoreNumber =>
      s.(value := s.value.(last := s.value.last.(number := Storing(name, s.lock.op).1.number)),
         lock := s.lock.(stage := Half))
    case StoreRest(now) =>
      var isFresh := s.lock.op.Dispatch? && s.lock.op.data.valid;
      s.(value := if s.lock.op.Dispatch? then Stored(name, s.value, now, s.lock.op.data) else Expired(name, s.value),
         lock := s.lock.(stage := Firing(0)),
         history := s.history + [Storing(name, s.lock.op)],
         events := if isFresh then s.events + [Fresh(now)]
                   else if s.lock.op.Check? then s.events + [Reset(s.lock.op.now)] else s.events)
    case Skip => s.(lock := s.lock.(stage := Done))
    case Arm =>
      s.(value := Armed(name, s.value, s.lock.op.now), started := true, lock := s.lock.(stage := Done),
         events := if name.timeout > 0 && s.value.deadline == 0 then s.events + [Arming(s.lock.op.now)] else s.events)
    case Fire =>
      var (source, data) := Storing(name, s.lock.op);
      var i := s.lock.stage.next;
      s.(inbox := if Gets(name.outputs[i], source) then s.inbox[i := s.inbox[i] + [data]] else s.inbox,
         lock := s.lock.(stage := Firing(i + 1)))
    case Release => s.(lock := Free)
  }

  ghost predicate Init<N>(name: Name<N>, s: State<N>) {
    && s.value == Initial(name) && s.lock == Free && !s.started && s.history == [] && s.events == []
    && |s.inbox| == |name.outputs| && forall i :: 0 <= i < |s.inbox| ==> s.inbox[i] == []
  }

  // ----- Outputs and store agree -----

  /** What an output must have received of a history: everything that was not its own. */
  function Delivered<N>(history: seq<(nat, Data<N>)>, o: Output): seq<Data<N>> {
    if history == [] then []
    else
      var (source, data) := history[|history| - 1];
      Delivered(history[..|history| - 1], o) + if Gets(o, source) then [data] else []
  }

  /** The part of the history that the i-th callback has been called for. */
  function FiredFor<N>(s: State<N>, i: nat): seq<(nat, Data<N>)> {
    if s.lock.Held? && s.lock.stage.Firing? && i >= s.lock.stage.next && s.history != []
    then s.history[..|s.history| - 1] else s.history
  }

  ghost predicate OutputsFollow<N>(name: Name<N>, s: State<N>) {
    && |s.inbox| == |name.outputs|
    && (forall i :: 0 <= i < |s.inbox| ==> s.inbox[i] == Delivered(FiredFor(s, i), name.outputs[i]))
    && (s.lock.Held? && s.lock.stage.Firing? ==>
          s.lock.stage.next <= |name.outputs| && s.history != []
          && s.history[|s.history| - 1] == Storing(name, s.lock.op))
  }

  /** What is stored: the last entry of the history. */
  function Current<N>(name: Name<N>, history: seq<(nat, Data<N>)>): Data<N> {
    if history == [] then Data(name.init, false) else history[|history| - 1].1
  }

  ghost predicate StoreFollows<N>(name: Name<N>, s: State<N>) {
    && (!(s.lock.Held? && s.lock.stage == Half) ==> s.value.last == Current(name, s.history))
    && (s.lock.Held? && s.lock.stage == Half ==> Stores(s.value, s.lock.op))
  }

  lemma DeliveredMore<N>(history: seq<(nat, Data<N>)>, last: (nat, Data<N>), o: Output)
    ensures Delivered(history + [last], o) == Delivered(history, o) + if Gets(o, last.0) then [last.1] else []
  {
    assert (history + [last])[..|history|] == history;
  }

  lemma FireOutput<N>(name: Name<N>, s: State<N>, i: nat)
    requires OutputsFollow(name, s) && Enabled(name, s, Fire) && i < |name.outputs|
    ensures Do(name, s, Fire).inbox[i] == Delivered(FiredFor(Do(name, s, Fire), i), name.outputs[i])
  {
    var s', h := Do(name, s, Fire), s.history;
    if i == s.lock.stage.next {
      assert FiredFor(s, i) == h[..|h| - 1] && FiredFor(s', i) == h;
      assert h == h[..|h| - 1] + [h[|h| - 1]];
      DeliveredMore(h[..|h| - 1], h[|h| - 1], name.outputs[i]);
    } else {
      assert FiredFor(s', i) == FiredFor(s, i) && s'.inbox[i] == s.inbox[i];
    }
  }

  lemma StepOutput<N>(name: Name<N>, s: State<N>, a: Action<N>, i: nat)
    requires OutputsFollow(name, s) && Enabled(name, s, a) && i < |name.outputs| && !a.Fire?
    ensures Do(name, s, a).inbox[i] == Delivered(FiredFor(Do(name, s, a), i), name.outputs[i])
  {
    var s' := Do(name, s, a);
    if a.StoreRest? {
      assert FiredFor(s', i) == s.history && FiredFor(s, i) == s.history by {
        assert s'.history[..|s'.history| - 1] == s.history;
      }
    } else {
      assert FiredFor(s', i) == FiredFor(s, i);
    }
    assert s'.inbox[i] == s.inbox[i] == Delivered(FiredFor(s, i), name.outputs[i]);
  }

  lemma StepFollows<N>(name: Name<N>, s: State<N>, a: Action<N>)
    requires OutputsFollow(name, s) && StoreFollows(name, s) && Enabled(name, s, a)
    ensures OutputsFollow(name, Do(name, s, a)) && StoreFollows(name, Do(name, s, a))
  {
    forall i | 0 <= i < |s.inbox|
      ensures Do(name, s, a).inbox[i] == Delivered(FiredFor(Do(name, s, a), i), name.outputs[i])
    {
      if a.Fire? {
        FireOutput(name, s, i);
      } else {
        StepOutput(name, s, a, i);
      }
    }
  }

  /** One callback of the lock holder. */
  lemma FireStep<N>(name: Name<N>, s: State<N>, inbox: seq<seq<Data<N>>>)
    requires |s.inbox| == |inbox| == |name.outputs| && Enabled(name, s, Fire)
    requires s.inbox == Fired(name, inbox, Storing(name, s.lock.op).0, Storing(name, s.lock.op).1, s.lock.stage.next)
    ensures Do(name, s, Fire).inbox
      == Fired(name, inbox, Storing(name, s.lock.op).0, Storing(name, s.lock.op).1, s.lock.stage.next + 1)
  {
    var i := s.lock.stage.next;
    assert s.inbox[i] == inbox[i];
  }

  // ----- The timeout -----

  function DeadlineOf<N>(name: Name<N>, events: seq<Event>): int {
    if events == [] then 0
    else match events[|events| - 1]
      case Fresh(time) => if name.timeout > 0 then time + name.timeout else 0
      case Arming(time) => time + name.timeout
      case Reset(_) => 0
  }

  /** Every reset directly follows data or the arming at startup, no earlier than
      the timeout after it. */
  ghost predicate ResetsAreDue<N>(name: Name<N>, events: seq<Event>) {
    forall j :: 0 <= j < |events| && events[j].Reset? ==>
      j > 0 && !events[j - 1].Reset? && events[j].time >= events[j - 1].time + name.timeout
  }

  /** Only the first event arms the name. */
  ghost predicate ArmedFirst(events: seq<Event>) {
    forall j :: 0 < j < |events| ==> !events[j].Arming?
  }

  /** The deadline of a value and the events that led to it. */
  ghost predicate EventsFollow<N>(name: Name<N>, v: Value<N>, started: bool, events: seq<Event>) {
    && (forall j :: 0 <= j < |events| ==> events[j].time >= 0)
    && ResetsAreDue(name, events) && ArmedFirst(events)
    && v.deadline == DeadlineOf(name, events)
    && (v.timedOut <==> events != [] && events[|events| - 1].Reset?)
    && (name.timeout == 0 ==> forall j :: 0 <= j < |events| ==> events[j].Fresh?)
    && (!started ==> forall j :: 0 <= j < |events| ==> events[j].Fresh?)
    && (started && name.timeout > 0 ==> events != [])
  }

  /** What is known of the operation of the lock holder. */
  ghost predicate HolderFollows<N>(name: Name<N>, s: State<N>) {
    s.lock.Held? ==>
      match s.lock.op
      case Dispatch(_, data) => name.timeout > 0 ==> data.valid
      case Check(now) =>
        && s.started && name.timeout > 0 && now >= 0
        && (s.lock.stage.Firing? ==> s.value.timedOut)
        && (s.lock.stage == Done ==> !IsDue(s.value, now))
      case Start(now) => now >= 0 && !s.lock.stage.Firing? && (s.lock.stage == Locked ==> !s.started)
  }

  lemma EventsMore<N>(name: Name<N>, v: Value<N>, started: bool, v': Value<N>, started': bool, events: seq<Event>, e: Event)
    requires EventsFollow(name, v, started, events) && e.time >= 0
    requires v'.deadline == DeadlineOf(name, events + [e]) && v'.timedOut == e.Reset?
    requires e.Reset? ==> events != [] && !events[|events| - 1].Reset? && e.time >= v.deadline && started
    requires e.Arming? ==> events == []
    requires name.timeout == 0 ==> e.Fresh?
    requires if e.Fresh? then started' == started else started'
    ensures EventsFollow(name, v', started', events + [e])
  {
    var more := events + [e];
    forall j | 0 <= j < |more| && more[j].Reset?
      ensures j > 0 && !more[j - 1].Reset? && more[j].time >= more[j - 1].time + name.timeout
    {
      if j < |events| {
        assert more[j] == events[j];
      }
    }
  }

  lemma StepEvents<N>(name: Name<N>, s: State<N>, a: Action<N>)
    requires EventsFollow(name, s.value, s.started, s.events) && HolderFollows(name, s) && StoreFollows(name, s)
    requires Enabled(name, s, a) && |s.inbox| == |name.outputs|
    ensures
      var s' := Do(name, s, a);
      EventsFollow(name, s'.value, s'.started, s'.events)
  {
    var s' := Do(name, s, a);
    if a.StoreRest? && s.lock.op.Dispatch? && s.lock.op.data.valid {
      EventsMore(name, s.value, s.started, s'.value, s'.started, s.events, Fresh(a.now));
    } else if a.StoreRest? && s.lock.op.Check? {
      EventsMore(name, s.value, s.started, s'.value, s'.started, s.events, Reset(s.lock.op.now));
    } else if a.Arm? && name.timeout > 0 && s.value.deadline == 0 {
      EventsMore(name, s.value, s.started, s'.value, s'.started, s.events, Arming(s.lock.op.now));
    }
  }

  lemma StepHolder<N>(name: Name<N>, s: State<N>, a: Action<N>)
    requires HolderFollows(name, s) && StoreFollows(name, s) && Enabled(name, s, a) && |s.inbox| == |name.outputs|
    ensures HolderFollows(name, Do(name, s, a))
  {
  }

  // ----- The data of names with a timeout -----

  /** A name with a timeout is valid exactly from its first data or the data after a
      reset on; otherwise it holds its init_value. */
  ghost predicate DataFollows<N>(name: Name<N>, s: State<N>) {
    && (name.timeout > 0 && !(s.lock.Held? && s.lock.stage == Half) ==>
          && (s.value.last.valid <==> s.value.received && !s.value.timedOut)
          && (!s.value.last.valid ==> s.value.last.number == name.init))
    && (name.timeout > 0 ==> (s.value.received <==> exists j :: 0 <= j < |s.events| && s.events[j].Fresh?))
  }

  lemma StepData<N>(name: Name<N>, s: State<N>, a: Action<N>)
    requires DataFollows(name, s) && HolderFollows(name, s) && Enabled(name, s, a) && |s.inbox| == |name.outputs|
    ensures DataFollows(name, Do(name, s, a))
  {
    var s' := Do(name, s, a);
    assert s.events <= s'.events;
    if a.StoreRest? && s.lock.op.Dispatch? && s.lock.op.data.valid {
      assert s'.events[|s.events|].Fresh?;
    }
  }

  ghost predicate Inv<N>(name: Name<N>, s: State<N>) {
    && OutputsFollow(name, s) && StoreFollows(name, s)
    && EventsFollow(name, s.value, s.started, s.events) && HolderFollows(name, s) && DataFollows(name, s)
  }

  ghost predicate IsRun<N>(name: Name<N>, run: seq<State<N>>, steps: seq<Action<N>>) {
    && |run| == |steps| + 1 && Init(name, run[0])
    && (forall i :: 0 <= i < |run| ==> |run[i].inbox| == |name.outputs|)
    && (forall i :: 0 <= i < |steps| ==> Enabled(name, run[i], steps[i]) && run[i + 1] == Do(name, run[i], steps[i]))
  }

  lemma {:induction false} RunInv<N>(name: Name<N>, run: seq<State<N>>, steps: seq<Action<N>>, n: nat)
    requires IsRun(name, run, steps) && n < |run|
    ensures Inv(name, run[n])
  {
    if n > 0 {
      RunInv(name, run, steps, n - 1);
      StepFollows(name, run[n - 1], steps[n - 1]);
      StepEvents(name, run[n - 1], steps[n - 1]);
      StepHolder(name, run[n - 1], steps[n - 1]);
      StepData(name, run[n - 1], steps[n - 1]);
    }
  }

  /** In every run, once the holder of the dispatch lock has stored its data, nothing
      but its callbacks can happen to the name until all have been called, and they do
      to the outputs what fire_cbs does. */
  lemma {:induction false} FireStepsAreFireCbs<N>(name: Name<N>, run: seq<State<N>>, steps: seq<Action<N>>, m: nat, k: nat)
    requires IsRun(name, run, steps) && m + k < |run| && k <= |name.outputs|
    requires run[m].lock.Held? && run[m].lock.stage == Firing(0)
    ensures
      var (source, data) := Storing(name, run[m].lock.op);
      && run[m + k].lock == Held(run[m].lock.op, Firing(k))
      && run[m + k].value == run[m].value && run[m + k].history == run[m].history
      && run[m + k].inbox == Fired(name, run[m].inbox, source, data, k)
  {
    if k > 0 {
      FireStepsAreFireCbs(name, run, steps, m, k - 1);
      assert Enabled(name, run[m + k - 1], steps[m + k - 1]) && steps[m + k - 1] == Fire;
      assert run[m + k - 1 + 1] == Do(name, run[m + k - 1], steps[m + k - 1]);
      FireStep(name, run[m + k - 1], run[m].inbox);
    }
  }

  /** `at` lists, in order, the positions of all data in the history that others than
      `owner` have stored, and the inbox is that data. */
  ghost predicate IsOthersData<N>(history: seq<(nat, Data<N>)>, owner: nat, inbox: seq<Data<N>>, at: seq<nat>) {
    && |at| == |inbox|
    && (forall k :: 0 <= k < |at| ==> at[k] < |history| && history[at[k]].0 != owner && history[at[k]].1 == inbox[k])
    && (forall j, k :: 0 <= j < k < |at| ==> at[j] < at[k])
    && (forall i :: 0 <= i < |history| && history[i].0 != owner ==> i in at)
  }

  lemma {:induction false} DeliveredIsOthersData<N>(history: seq<(nat, Data<N>)>, owner: nat) returns (at: seq<nat>)
    ensures IsOthersData(history, owner, Delivered(history, Output(owner)), at)
  {
    at := [];
    if history != [] {
      var n := |history| - 1;
      at := DeliveredIsOthersData(history[..n], owner);
      OthersMore(history, owner, Delivered(history[..n], Output(owner)), at);
      at := if history[n].0 != owner then at + [n] else at;
    }
  }

  lemma {:induction false} OthersMore<N>(history: seq<(nat, Data<N>)>, owner: nat, inbox: seq<Data<N>>, at: seq<nat>)
    requires history != [] && IsOthersData(history[..|history| - 1], owner, inbox, at)
    ensures
      var n := |history| - 1;
      if history[n].0 != owner then IsOthersData(history, owner, inbox + [history[n].1], at + [n])
      else IsOthersData(history, owner, inbox, at)
  {
    var n := |history| - 1;
    forall i | 0 <= i < n && history[i].0 != owner ensures i in at {
      assert history[..n][i] == history[i];
    }
    assert forall k :: 0 <= k < |at| ==> history[..n][at[k]] == history[at[k]];
  }

  lemma {:induction false} NothingDelivered<N>(history: seq<(nat, Data<N>)>)
    ensures Delivered(history, Unregistered) == []
  {
    if history != [] {
      NothingDelivered(history[..|history| - 1]);
    }
  }

  /** In every interleaving of producers, watchdog and startup: whenever the dispatch
      lock is free, each output has received exactly the data that others have stored,
      in that order.  If others have stored last, the last of it is what a reader gets. */
  lemma OutputsAgreeWithStore<N>(name: Name<N>, run: seq<State<N>>, steps: seq<Action<N>>, n: nat, i: nat)
    requires IsRun(name, run, steps) && n < |run| && i < |name.outputs| && run[n].lock.Free?
    ensures name.outputs[i].Unregistered? ==> run[n].inbox[i] == []
    ensures name.outputs[i].Output? ==>
      var s, owner := run[n], name.outputs[i].owner;
      && (exists at :: IsOthersData(s.history, owner, s.inbox[i], at))
      && (s.history != [] && s.history[|s.history| - 1].0 != owner ==>
            s.inbox[i] != [] && s.inbox[i][|s.inbox[i]| - 1] == s.value.last)
  {
    RunInv(name, run, steps, n);
    var s := run[n];
    if name.outputs[i].Output? {
      var at := DeliveredIsOthersData(s.history, name.outputs[i].owner);
    } else {
      NothingDelivered(s.history);
    }
  }

  /** A reader, which takes the inner lock only, never gets a number with the
      validity of another one. */
  lemma ReadsAreWhole<N>(name: Name<N>, run: seq<State<N>>, steps: seq<Action<N>>, n: nat)
    requires IsRun(name, run, steps) && n < |run| && !(run[n].lock.Held? && run[n].lock.stage == Half)
    ensures run[n].value.last == Current(name, run[n].history)
  {
    RunInv(name, run, steps, n);
  }

  /** After startup a name with a timeout is disarmed exactly while it is reset:
      invalid, at its init_value. */
  lemma DisarmedIsReset<N>(name: Name<N>, run: seq<State<N>>, steps: seq<Action<N>>, n: nat)
    requires IsRun(name, run, steps) && n < |run| && run[n].started && name.timeout > 0
    ensures run[n].events != [] && (run[n].value.deadline == 0 <==> run[n].events[|run[n].events| - 1].Reset?)
    ensures run[n].value.deadline == 0 && run[n].lock.Free? ==> run[n].value.last == Data(name.init, false)
  {
    RunInv(name, run, steps, n);
    var events := run[n].events;
    assert events[|events| - 1].time >= 0;
  }

  /** In every interleaving a name with a timeout is valid exactly if it has received
      data and is not reset since, and otherwise holds its init_value. */
  lemma ValidIsReceived<N>(name: Name<N>, run: seq<State<N>>, steps: seq<Action<N>>, n: nat)
    requires IsRun(name, run, steps) && n < |run| && name.timeout > 0
    requires !(run[n].lock.Held? && run[n].lock.stage == Half)
    ensures
      var s := run[n];
      && (s.value.last.valid <==>
            (exists j :: 0 <= j < |s.events| && s.events[j].Fresh?) && !s.events[|s.events| - 1].Reset?)
      && (!s.value.last.valid ==> s.value.last.number == name.init)
  {
    RunInv(name, run, steps, n);
  }

  /** Two resets have valid data between them, and each comes at least the timeout
      after the last data or the arming. */
  lemma ResetsAreSeparated<N>(name: Name<N>, run: seq<State<N>>, steps: seq<Action<N>>, n: nat, i: nat, j: nat)
    requires IsRun(name, run, steps) && n < |run|
    requires j < |run[n].events| && run[n].events[j].Reset?
    ensures j > 0 && !run[n].events[j - 1].Reset?
    ensures run[n].events[j].time >= run[n].events[j - 1].time + name.timeout
    ensures i < j && run[n].events[i].Reset? ==> i < j - 1 && run[n].events[j - 1].Fresh?
  {
    RunInv(name, run, steps, n);
  }

  /** Once a check has been made, the name is reset or not overdue at the time of the
      check: the last data or the arming is less than the timeout ago. */
  lemma CheckedIsNotOverdue<N>(name: Name<N>, run: seq<State<N>>, steps: seq<Action<N>>, n: nat)
    requires IsRun(name, run, steps) && n < |run|
    requires run[n].lock.Held? && run[n].lock.op.Check?
    requires run[n].lock.stage == Done || run[n].lock.stage == Firing(|name.outputs|)
    ensures run[n].events != []
    ensures
      var s, last := run[n], run[n].events[|run[n].events| - 1];
      && (last.Reset? || s.lock.op.now < last.time + name.timeout)
      && (s.value.last.valid ==> last.Fresh? && s.lock.op.now < s.value.deadline == last.time + name.timeout)
  {
    RunInv(name, run, steps, n);
    var events := run[n].events;
    assert events != [] && events[|events| - 1].time >= 0;
  }
}
