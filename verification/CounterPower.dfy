/** What a power counter counts: the energy of the powers it held, and what is
    counted twice when a source value overtakes a tick.

    The values of one source reach a counter one after the other, under the dispatch
    lock of the source, so their times are in order.  The ticks come from another
    thread: the time of a source value or a tick is sampled before the lock of the
    counter is taken, so either may be older than what has been integrated. */
module CounterPower {
  import opened Counter

  /** What happens to a power counter: a value of the source, its loss, a tick. */
  datatype Event = Power(f: real, now: int) | Stop(now: int) | Tick(now: int)

  function AfterEvent(cfg: Config, s: State, e: Event): State {
    match e
    case Power(f, now) => Updated(cfg, s, f, true, now)
    case Stop(now) => Updated(cfg, s, 0.0, false, now)
    case Tick(now) => Ticked(cfg, s, now)
  }

  function AfterEvents(cfg: Config, s: State, events: seq<Event>): State {
    if events == [] then s
    else AfterEvent(cfg, AfterEvents(cfg, s, events[..|events| - 1]), events[|events| - 1])
  }

  // ----- The energy of a list of events -----

  /** A power that is held since some time. */
  datatype Holding = Nothing | Holding(power: real, since: int)

  /** The part of a power that is summed up: what a counter of a sign counts, or the
      signed power itself. */
  datatype Part = Plus | Minus | Signed

  function Taken(part: Part, power: real): real {
    match part
    case Plus => Positive(power)
    case Minus => Positive(-power)
    case Signed => power
  }

  function PartOf(sign: int): Part {
    if sign == 1 then Plus else Minus
  }

  function HeldPower(part: Part, h: Holding): real {
    if h.Nothing? then 0.0 else Taken(part, h.power)
  }

  /** The energy of a held power up to `now`. */
  function HeldEnergy(part: Part, h: Holding, now: int): real {
    if h.Nothing? then 0.0 else Energy(Taken(part, h.power), now - h.since)
  }

  /** The sum over the intervals in which a power was held and that have ended, and
      what is held now. */
  datatype Account = Account(sum: real, held: Holding)

  /** Ticks do not matter. */
  function Booked(part: Part, scale: real, a: Account, e: Event): Account {
    match e
    case Power(f, now) => Account(a.sum + HeldEnergy(part, a.held, now), Holding(f * scale, now))
    case Stop(now) => Account(a.sum + HeldEnergy(part, a.held, now), Nothing)
    case Tick(_) => a
  }

  function AccountOf(part: Part, scale: real, events: seq<Event>): Account {
    if events == [] then Account(0.0, Nothing)
    else Booked(part, scale, AccountOf(part, scale, events[..|events| - 1]), events[|events| - 1])
  }

  /** The sum of power times duration over all intervals in which a power was held,
      the last one up to `now`. */
  function SumUpTo(part: Part, a: Account, now: int): real {
    a.sum + HeldEnergy(part, a.held, now)
  }

  // ----- What is counted twice -----

  /** The time up to which a held power has been integrated: the time of that power
      or of a later tick. */
  function Reached(events: seq<Event>): int {
    if events == [] then 0
    else
      var before, e := Reached(events[..|events| - 1]), events[|events| - 1];
      match e
      case Power(_, now) => now
      case Stop(_) => before
      case Tick(now) => if now > before then now else before
  }

  /** The source value or its loss is older than what has been integrated, and a power
      that counts is held: the time in between is counted again. */
  ghost predicate StepsBack(part: Part, scale: real, events: seq<Event>, i: nat)
    requires i < |events|
  {
    && !events[i].Tick? && events[i].now < Reached(events[..i])
    && HeldPower(part, AccountOf(part, scale, events[..i]).held) > 0.0
  }

  /** What is counted twice at an event. */
  function Again(part: Part, h: Holding, reached: int, e: Event): real {
    if !e.Tick? && e.now < reached then Energy(HeldPower(part, h), reached - e.now) else 0.0
  }

  function Excess(part: Part, scale: real, events: seq<Event>): real {
    if events == [] then 0.0
    else
      var before := events[..|events| - 1];
      Excess(part, scale, before)
      + Again(part, AccountOf(part, scale, before).held, Reached(before), events[|events| - 1])
  }

  // ----- What the counter counts -----

  /** A power counter before its first event. */
  ghost predicate IsStart(s: State) {
    !s.disabled && !s.hasPower && (!s.initialized ==> s.accum == 0.0)
  }

  /** The counter has counted `base` and the account up to `reached`. */
  ghost predicate Counts(cfg: Config, s: State, base: real, a: Account, reached: int) {
    && !s.disabled && (!s.initialized ==> s.accum == 0.0 && a.held.Nothing?)
    && (s.hasPower <==> a.held.Holding?)
    && (a.held.Holding? ==> s.power == a.held.power && s.integratedTs == reached)
    && s.accum == base + SumUpTo(PartOf(cfg.sign), a, reached)
  }

  lemma HeldEnergySplits(part: Part, h: Holding, t1: int, t2: int)
    ensures HeldEnergy(part, h, t2) == HeldEnergy(part, h, t1) + Energy(HeldPower(part, h), t2 - t1)
  {
    if h.Holding? {
      EnergySplits(Taken(part, h.power), h.since, t1, t2);
    }
  }

  /** integrate counts what is held up to the later one of both times. */
  lemma IntegrateCounts(cfg: Config, s: State, base: real, a: Account, reached: int, now: int)
    requires IsConfig(cfg) && Counts(cfg, s, base, a, reached)
    ensures Counts(cfg, Integrated(cfg, s, now), base, a, if now > reached then now else reached)
  {
    if a.held.Holding? {
      assert Taken(PartOf(cfg.sign), a.held.power) == Positive(a.held.power * cfg.sign as real);
      HeldEnergySplits(PartOf(cfg.sign), a.held, reached, now);
    }
  }

  lemma EventCounts(cfg: Config, s: State, base: real, a: Account, reached: int, e: Event)
    requires IsConfig(cfg) && cfg.integratePower && Counts(cfg, s, base, a, reached)
    ensures
      var a', again := Booked(PartOf(cfg.sign), cfg.scale, a, e), Again(PartOf(cfg.sign), a.held, reached, e);
      Counts(cfg, AfterEvent(cfg, s, e), base + again, a',
        if e.Power? || (e.Tick? && e.now > reached) then e.now else reached)
  {
    IntegrateCounts(cfg, s, base, a, reached, e.now);
    HeldEnergySplits(PartOf(cfg.sign), a.held, e.now, reached);
    if e.Power? {
      assert Integrated(cfg, Started(s), e.now).accum == Integrated(cfg, s, e.now).accum;
    }
  }

  /** For every list of events the total is the sum over the intervals in which a power
      was held of its counted part times the duration, and what is counted twice. */
  lemma {:induction false} IntegrationIsSum(cfg: Config, s: State, events: seq<Event>)
    requires IsConfig(cfg) && cfg.integratePower && IsStart(s)
    ensures Counts(cfg, AfterEvents(cfg, s, events), s.accum + Excess(PartOf(cfg.sign), cfg.scale, events),
      AccountOf(PartOf(cfg.sign), cfg.scale, events), Reached(events))
    ensures AfterEvents(cfg, s, events).accum
      == s.accum + SumUpTo(PartOf(cfg.sign), AccountOf(PartOf(cfg.sign), cfg.scale, events), Reached(events))
         + Excess(PartOf(cfg.sign), cfg.scale, events)
  {
    if events != [] {
      var e, before := events[|events| - 1], events[..|events| - 1];
      var part := PartOf(cfg.sign);
      IntegrationIsSum(cfg, s, before);
      EventCounts(cfg, AfterEvents(cfg, s, before), s.accum + Excess(part, cfg.scale, before),
        AccountOf(part, cfg.scale, before), Reached(before), e);
    }
  }

  /** No source value or loss is late for a power that counts. */
  ghost predicate NeverBack(part: Part, scale: real, events: seq<Event>) {
    forall i :: 0 <= i < |events| ==> !StepsBack(part, scale, events, i)
  }

  lemma {:induction false} NeverBackStep(part: Part, scale: real, events: seq<Event>)
    requires events != []
    ensures NeverBack(part, scale, events) <==>
      NeverBack(part, scale, events[..|events| - 1]) && !StepsBack(part, scale, events, |events| - 1)
  {
    var before := events[..|events| - 1];
    forall i | 0 <= i < |before| ensures StepsBack(part, scale, before, i) <==> StepsBack(part, scale, events, i) {
      assert before[..i] == events[..i];
    }
  }

  lemma {:induction false} ExcessIsZeroIff(part: Part, scale: real, events: seq<Event>)
    requires part != Signed
    ensures Excess(part, scale, events) >= 0.0
    ensures Excess(part, scale, events) == 0.0 <==> NeverBack(part, scale, events)
  {
    if events != [] {
      var before := events[..|events| - 1];
      ExcessIsZeroIff(part, scale, before);
      NeverBackStep(part, scale, events);
      AgainIsZeroIff(part, AccountOf(part, scale, before).held, Reached(before), events[|events| - 1]);
    }
  }

  lemma AgainIsZeroIff(part: Part, h: Holding, reached: int, e: Event)
    requires part != Signed
    ensures Again(part, h, reached, e) >= 0.0
    ensures Again(part, h, reached, e) == 0.0 <==> e.Tick? || e.now >= reached || HeldPower(part, h) == 0.0
    ensures HeldPower(part, h) >= 0.0
  {
    if !e.Tick? && e.now < reached {
      EnergyIsZeroIff(HeldPower(part, h), reached - e.now);
    }
  }

  lemma EnergyIsZeroIff(power: real, ms: int)
    requires power >= 0.0 && ms > 0
    ensures Energy(power, ms) >= 0.0 && (Energy(power, ms) == 0.0 <==> power == 0.0)
  {
    if power > 0.0 {
      assert power * ms as real > 0.0;
    }
  }

  /** The total never falls short of the energy of the held powers, and equals it
      exactly if no source value or loss steps back behind a tick while a power that
      counts is held. */
  lemma {:induction false} IntegrationIsExactIff(cfg: Config, s: State, events: seq<Event>)
    requires IsConfig(cfg) && cfg.integratePower && IsStart(s)
    ensures
      var part := PartOf(cfg.sign);
      var exact := s.accum + SumUpTo(part, AccountOf(part, cfg.scale, events), Reached(events));
      && AfterEvents(cfg, s, events).accum >= exact
      && (AfterEvents(cfg, s, events).accum == exact <==> NeverBack(part, cfg.scale, events))
  {
    IntegrationIsSum(cfg, s, events);
    ExcessIsZeroIff(PartOf(cfg.sign), cfg.scale, events);
  }

  /** The race that makes it happen: the source value `e` samples its time, a tick
      samples a later one but takes the lock first.  The time between both is counted
      twice. */
  lemma {:induction false} OvertakingTickCountsTwice(part: Part, scale: real, before: seq<Event>, tick: int, e: Event)
    requires !e.Tick? && Reached(before) <= e.now < tick
    requires HeldPower(part, AccountOf(part, scale, before).held) > 0.0
    ensures
      var events, held := before + [Tick(tick)] + [e], AccountOf(part, scale, before).held;
      && !NeverBack(part, scale, events)
      && Excess(part, scale, events) == Excess(part, scale, before) + Energy(HeldPower(part, held), tick - e.now)
  {
    var ticked := before + [Tick(tick)];
    var events := ticked + [e];
    Appended(part, scale, before, Tick(tick));
    Appended(part, scale, ticked, e);
    assert events[..|ticked|] == ticked && events[|ticked|] == e;
    assert StepsBack(part, scale, events, |ticked|);
  }

  lemma {:induction false} Appended(part: Part, scale: real, before: seq<Event>, e: Event)
    ensures AccountOf(part, scale, before + [e]) == Booked(part, scale, AccountOf(part, scale, before), e)
    ensures Excess(part, scale, before + [e])
      == Excess(part, scale, before) + Again(part, AccountOf(part, scale, before).held, Reached(before), e)
    ensures e.Tick? && e.now > Reached(before) ==> Reached(before + [e]) == e.now
  {
    assert (before + [e])[..|before|] == before;
  }

  lemma {:induction false} AfterOneMore(cfg: Config, s: State, before: seq<Event>, e: Event)
    ensures AfterEvents(cfg, s, before + [e]) == AfterEvent(cfg, AfterEvents(cfg, s, before), e)
  {
    assert (before + [e])[..|before|] == before;
  }

  /** Whatever has happened before: a power held from `t0` to the next event adds its
      product with that time in hours, if it has the counted sign, and nothing if it has
      the other. */
  lemma {:induction false} HeldPowerIsCounted(cfg: Config, s: State, before: seq<Event>, f: real, t0: int, e: Event)
    requires IsConfig(cfg) && cfg.integratePower && IsStart(s) && t0 <= e.now
    ensures
      var held, counted := before + [Power(f, t0)], f * cfg.scale * cfg.sign as real;
      AfterEvents(cfg, s, held + [e]).accum - AfterEvents(cfg, s, held).accum
        == if counted > 0.0 then counted * (e.now - t0) as real / 3600000.0 else 0.0
  {
    var was := AfterEvents(cfg, s, before);
    StaysEnabled(cfg, s, before);
    AfterOneMore(cfg, s, before, Power(f, t0));
    AfterOneMore(cfg, s, before + [Power(f, t0)], e);
    PowerIsHeld(cfg, was, f, t0);
    HeldStep(cfg, AfterEvent(cfg, was, Power(f, t0)), e);
  }

  /** And nothing is added from a loss to the next event. */
  lemma {:induction false} GapIsNotCounted(cfg: Config, s: State, before: seq<Event>, t0: int, e: Event)
    requires IsConfig(cfg) && cfg.integratePower && IsStart(s)
    ensures AfterEvents(cfg, s, before + [Stop(t0)] + [e]).accum == AfterEvents(cfg, s, before + [Stop(t0)]).accum
  {
    var was := AfterEvents(cfg, s, before);
    StaysEnabled(cfg, s, before);
    AfterOneMore(cfg, s, before, Stop(t0));
    AfterOneMore(cfg, s, before + [Stop(t0)], e);
    StoppedStep(cfg, AfterEvent(cfg, was, Stop(t0)), e);
  }

  lemma {:induction false} StaysEnabled(cfg: Config, s: State, events: seq<Event>)
    requires IsConfig(cfg) && cfg.integratePower && IsStart(s)
    ensures
      var s' := AfterEvents(cfg, s, events);
      !s'.disabled && (!s'.initialized ==> s'.accum == 0.0 && !s'.hasPower)
  {
    if events != [] {
      StaysEnabled(cfg, s, events[..|events| - 1]);
    }
  }

  lemma PowerIsHeld(cfg: Config, s: State, f: real, t0: int)
    requires cfg.integratePower && !s.disabled
    ensures
      var s' := AfterEvent(cfg, s, Power(f, t0));
      !s'.disabled && s'.initialized && s'.hasPower && s'.power == f * cfg.scale && s'.integratedTs == t0
  {
  }

  lemma HeldStep(cfg: Config, s: State, e: Event)
    requires cfg.integratePower && !s.disabled && s.initialized && s.hasPower && s.integratedTs <= e.now
    ensures
      var counted := s.power * cfg.sign as real;
      AfterEvent(cfg, s, e).accum - s.accum
        == if counted > 0.0 then counted * (e.now - s.integratedTs) as real / 3600000.0 else 0.0
  {
  }

  lemma StoppedStep(cfg: Config, s: State, e: Event)
    requires cfg.integratePower && !s.disabled && !s.hasPower && (!s.initialized ==> s.accum == 0.0)
    ensures AfterEvent(cfg, s, e).accum == s.accum
  {
  }

  // ----- Events in order -----

  ghost predicate InOrder(events: seq<Event>) {
    forall i :: 0 <= i < |events| - 1 ==> events[i].now <= events[i + 1].now
  }

  /** With all times in order the counter has counted up to the last event. */
  lemma {:induction false} OrderedEventsAreExact(cfg: Config, s: State, events: seq<Event>, now: int)
    requires IsConfig(cfg) && cfg.integratePower && IsStart(s)
    requires InOrder(events) && events != [] && now == events[|events| - 1].now
    ensures AfterEvents(cfg, s, events).accum
      == s.accum + SumUpTo(PartOf(cfg.sign), AccountOf(PartOf(cfg.sign), cfg.scale, events), now)
  {
    var part := PartOf(cfg.sign);
    IntegrationIsExactIff(cfg, s, events);
    forall i | 0 <= i < |events| ensures !StepsBack(part, cfg.scale, events, i) {
      if StepsBack(part, cfg.scale, events, i) {
        assert i > 0 && events[..i][i - 1] == events[i - 1];
        OrderedReached(part, cfg.scale, events[..i]);
        assert false;
      }
    }
    if AccountOf(part, cfg.scale, events).held.Holding? {
      OrderedReached(part, cfg.scale, events);
    }
  }

  lemma {:induction false} OrderedReached(part: Part, scale: real, events: seq<Event>)
    requires InOrder(events) && events != [] && AccountOf(part, scale, events).held.Holding?
    ensures Reached(events) == events[|events| - 1].now
  {
    var n := |events| - 1;
    if n > 0 && events[n].Tick? {
      OrderedReached(part, scale, events[..n]);
    }
  }

  // ----- Two counters of opposite sign -----

  /** The values and losses of the source. */
  function SourceOnly(events: seq<Event>): seq<Event> {
    if events == [] then []
    else SourceOnly(events[..|events| - 1]) + if events[|events| - 1].Tick? then [] else [events[|events| - 1]]
  }

  lemma {:induction false} TicksAreNotBooked(part: Part, scale: real, events: seq<Event>)
    ensures AccountOf(part, scale, SourceOnly(events)) == AccountOf(part, scale, events)
  {
    if events != [] {
      var n := |events| - 1;
      TicksAreNotBooked(part, scale, events[..n]);
      var source, before := SourceOnly(events), SourceOnly(events[..n]);
      if events[n].Tick? {
        assert source == before;
      } else {
        assert source == before + [events[n]] && source[..|source| - 1] == before;
      }
    }
  }

  /** The same values and losses of one source, as two counters see them: each samples
      its own times, `skew` apart at most. */
  ghost predicate SameSource(s1: seq<Event>, s2: seq<Event>, skew: int) {
    |s1| == |s2| && forall i :: 0 <= i < |s1| ==> SameEvent(s1[i], s2[i], skew)
  }

  ghost predicate SameEvent(e1: Event, e2: Event, skew: int) {
    && !e1.Tick? && !e2.Tick? && -skew <= e1.now - e2.now <= skew
    && (if e1.Power? then e2.Power? && e1.f == e2.f else e2.Stop?)
  }

  /** The powers held one after the other, as far as they are counted. */
  function PowerSum(part: Part, scale: real, source: seq<Event>): real {
    if source == [] then 0.0
    else
      var before := source[..|source| - 1];
      PowerSum(part, scale, before) + HeldPower(part, AccountOf(part, scale, before).held)
  }

  predicate Within(x: real, bound: real) {
    -bound <= x <= bound
  }

  /** One interval of a held power, with both ends `skew` apart at most. */
  lemma PartsDiffer(h1: Holding, h2: Holding, now1: int, now2: int, skew: int)
    requires SameHolding(h1, h2, skew) && (h1.Holding? ==> -skew <= now1 - now2 <= skew)
    ensures Within(HeldEnergy(Plus, h1, now1) - HeldEnergy(Minus, h2, now2) - HeldEnergy(Signed, h1, now1),
      Energy(HeldPower(Minus, h2), 2 * skew))
  {
    if h1.Holding? {
      var p, d1, d2 := Taken(Minus, h1.power), now1 - h1.since, now2 - h2.since;
      assert Taken(Plus, h1.power) - h1.power == p;
      EnergySubtracts(Taken(Plus, h1.power), h1.power, d1);
      EnergyIsSteady(p, d1, d2, 2 * skew);
    }
  }

  lemma EnergySubtracts(p: real, q: real, ms: int)
    ensures Energy(p, ms) - Energy(q, ms) == Energy(p - q, ms)
  {
  }

  lemma EnergyIsSteady(power: real, t1: int, t2: int, skew: int)
    requires power >= 0.0 && -skew <= t1 - t2 <= skew
    ensures Within(Energy(power, t1) - Energy(power, t2), Energy(power, skew))
  {
    EnergySplits(power, 0, t2, t1);
    EnergyIsMonotone(power, t1 - t2, skew);
    EnergyIsMonotone(power, -skew, t1 - t2);
  }

  lemma EnergyIsMonotone(power: real, t1: int, t2: int)
    requires power >= 0.0 && t1 <= t2
    ensures Energy(power, t1) <= Energy(power, t2)
  {
    assert power * (t2 - t1) as real >= 0.0;
    EnergySplits(power, 0, t1, t2);
  }

  ghost predicate SameHolding(h1: Holding, h2: Holding, skew: int) {
    && (h1.Holding? <==> h2.Holding?)
    && (h1.Holding? ==> h1.power == h2.power && -skew <= h1.since - h2.since <= skew)
  }

  lemma {:induction false} AccountsDiffer(scale: real, s1: seq<Event>, s2: seq<Event>, skew: int)
    requires SameSource(s1, s2, skew)
    ensures
      var plus, minus, signed := AccountOf(Plus, scale, s1), AccountOf(Minus, scale, s2), AccountOf(Signed, scale, s1);
      && plus.held == signed.held && SameHolding(plus.held, minus.held, skew)
      && Within(plus.sum - minus.sum - signed.sum, Energy(PowerSum(Minus, scale, s2), 2 * skew))
  {
    if s1 != [] {
      var n := |s1| - 1;
      AccountsDiffer(scale, s1[..n], s2[..n], skew);
      var h1, h2 := AccountOf(Signed, scale, s1[..n]).held, AccountOf(Minus, scale, s2[..n]).held;
      assert SameEvent(s1[n], s2[n], skew);
      PartsDiffer(h1, h2, s1[n].now, s2[n].now, skew);
      EnergyAdds(PowerSum(Minus, scale, s2[..n]), HeldPower(Minus, h2), 2 * skew);
    }
  }

  lemma EnergyAdds(p: real, q: real, ms: int)
    ensures Energy(p, ms) + Energy(q, ms) == Energy(p + q, ms)
  {
  }

  /** The energy of all powers counted as negative over the skew at both ends. */
  function SkewBound(scale: real, events: seq<Event>, skew: int): real {
    Energy(PowerSum(Minus, scale, SourceOnly(events)) + HeldPower(Minus, AccountOf(Minus, scale, events).held), 2 * skew)
  }

  lemma {:induction false} SumsDiffer(scale: real, e1: seq<Event>, e2: seq<Event>, skew: int)
    requires SameSource(SourceOnly(e1), SourceOnly(e2), skew) && -skew <= Reached(e1) - Reached(e2) <= skew
    ensures Within(SumUpTo(Plus, AccountOf(Plus, scale, e1), Reached(e1))
      - SumUpTo(Minus, AccountOf(Minus, scale, e2), Reached(e2))
      - SumUpTo(Signed, AccountOf(Signed, scale, e1), Reached(e1)), SkewBound(scale, e2, skew))
  {
    TicksAreNotBooked(Plus, scale, e1);
    TicksAreNotBooked(Signed, scale, e1);
    TicksAreNotBooked(Minus, scale, e2);
    SourcesDiffer(scale, SourceOnly(e1), SourceOnly(e2), Reached(e1), Reached(e2), skew);
  }

  lemma {:induction false} SourcesDiffer(scale: real, s1: seq<Event>, s2: seq<Event>, now1: int, now2: int, skew: int)
    requires SameSource(s1, s2, skew) && -skew <= now1 - now2 <= skew
    ensures Within(SumUpTo(Plus, AccountOf(Plus, scale, s1), now1) - SumUpTo(Minus, AccountOf(Minus, scale, s2), now2)
      - SumUpTo(Signed, AccountOf(Signed, scale, s1), now1),
      Energy(PowerSum(Minus, scale, s2) + HeldPower(Minus, AccountOf(Minus, scale, s2).held), 2 * skew))
  {
    AccountsDiffer(scale, s1, s2, skew);
    LastIntervalDiffers(AccountOf(Plus, scale, s1), AccountOf(Minus, scale, s2), AccountOf(Signed, scale, s1),
      PowerSum(Minus, scale, s2), now1, now2, skew);
  }

  lemma LastIntervalDiffers(plus: Account, minus: Account, signed: Account, power: real, now1: int, now2: int, skew: int)
    requires plus.held == signed.held && SameHolding(plus.held, minus.held, skew) && -skew <= now1 - now2 <= skew
    requires Within(plus.sum - minus.sum - signed.sum, Energy(power, 2 * skew))
    ensures Within(SumUpTo(Plus, plus, now1) - SumUpTo(Minus, minus, now2) - SumUpTo(Signed, signed, now1),
      Energy(power + HeldPower(Minus, minus.held), 2 * skew))
  {
    PartsDiffer(plus.held, minus.held, now1, now2, skew);
    EnergyAdds(power, HeldPower(Minus, minus.held), 2 * skew);
  }

  /** What a counter has counted, less what it counted twice. */
  ghost function CountedOnce(cfg: Config, s: State, events: seq<Event>): real {
    AfterEvents(cfg, s, events).accum - s.accum - Excess(PartOf(cfg.sign), cfg.scale, events)
  }

  lemma NoSkewNoBound(scale: real, events: seq<Event>)
    ensures SkewBound(scale, events, 0) == 0.0
  {
  }

  /** What two counters of opposite sign on one source count differs, apart from what
      each counts twice, by the signed energy, up to the powers times the skew of their
      clocks: exactly, if both sample the same times, however their ticks fall. */
  lemma {:induction false} OppositeSigns(
    plus: Config, minus: Config, s1: State, s2: State, e1: seq<Event>, e2: seq<Event>, skew: int
  )
    requires IsConfig(plus) && plus.integratePower && plus.sign == 1 && minus == plus.(sign := -1)
    requires IsStart(s1) && IsStart(s2) && SameSource(SourceOnly(e1), SourceOnly(e2), skew)
    requires -skew <= Reached(e1) - Reached(e2) <= skew
    ensures
      var signed := SumUpTo(Signed, AccountOf(Signed, plus.scale, e1), Reached(e1));
      && Within(CountedOnce(plus, s1, e1) - CountedOnce(minus, s2, e2) - signed, SkewBound(plus.scale, e2, skew))
      && (skew == 0 ==> CountedOnce(plus, s1, e1) - CountedOnce(minus, s2, e2) == signed)
  {
    IntegrationIsSum(plus, s1, e1);
    IntegrationIsSum(minus, s2, e2);
    SumsDiffer(plus.scale, e1, e2, skew);
    NoSkewNoBound(plus.scale, e2);
  }

  ghost function Rise(cfg: Config, s: State, events: seq<Event>): real {
    AfterEvents(cfg, s, events).accum - s.accum
  }

  /** So do the rises of their totals, unless a source value steps back behind a tick. */
  lemma {:induction false} RisesDifferBySignedEnergy(
    plus: Config, minus: Config, s1: State, s2: State, e1: seq<Event>, e2: seq<Event>, skew: int
  )
    requires IsConfig(plus) && plus.integratePower && plus.sign == 1 && minus == plus.(sign := -1)
    requires IsStart(s1) && IsStart(s2) && SameSource(SourceOnly(e1), SourceOnly(e2), skew)
    requires -skew <= Reached(e1) - Reached(e2) <= skew
    requires NeverBack(Plus, plus.scale, e1) && NeverBack(Minus, plus.scale, e2)
    ensures
      var signed := SumUpTo(Signed, AccountOf(Signed, plus.scale, e1), Reached(e1));
      && Within(Rise(plus, s1, e1) - Rise(minus, s2, e2) - signed, SkewBound(plus.scale, e2, skew))
      && (skew == 0 ==> Rise(plus, s1, e1) - Rise(minus, s2, e2) == signed)
  {
    OppositeSigns(plus, minus, s1, s2, e1, e2, skew);
    ExcessIsZeroIff(Plus, plus.scale, e1);
    ExcessIsZeroIff(Minus, plus.scale, e2);
  }
}
