/** A persistent counter: device readings with resets and plausibility limit, and
    integrated power.  Doubles are reals; times are milliseconds. */
module Counter {

  datatype Config = Config(integratePower: bool, maxPower: real, scale: real, sign: int)

  predicate IsConfig(cfg: Config) {
    && cfg.scale > 0.0 && (cfg.sign == 1 || cfg.sign == -1)
    && (if cfg.integratePower then cfg.maxPower == 0.0 else cfg.maxPower >= 0.0 && cfg.sign == 1)
  }

  datatype State = State(
    disabled: bool, initialized: bool, accum: real, lastRead: real, dirty: bool,
    hasChange: bool, changeTs: int, hasPower: bool, power: real, integratedTs: int
  )

  const MS_PER_HOUR := 3600000.0

  function Energy(power: real, ms: int): real {
    power * ms as real / MS_PER_HOUR
  }

  // ----- What one call does -----

  /** What a reading adds to a total: the difference, or after a reset the reading. */
  function Delta(last: real, raw: real): real {
    if raw < last then raw else raw - last
  }

  function DeviceUpdated(cfg: Config, s: State, raw: real, now: int): State {
    if raw < 0.0 || (s.initialized && raw == s.lastRead) then s
    else if !s.initialized then
      s.(accum := raw, lastRead := raw, initialized := true, dirty := true, hasChange := true, changeTs := now)
    else
      var delta := Delta(s.lastRead, raw);
      var implausible := cfg.maxPower > 0.0 && s.hasChange && delta > Energy(cfg.maxPower, now - s.changeTs);
      s.(accum := if implausible then s.accum else s.accum + delta,
         lastRead := raw, dirty := true, hasChange := true, changeTs := now)
  }

  function Positive(power: real): real {
    if power > 0.0 then power else 0.0
  }

  function Integrated(cfg: Config, s: State, now: int): State {
    if !s.hasPower || now <= s.integratedTs then s
    else
      var counted := Positive(s.power * cfg.sign as real);
      s.(accum := s.accum + Energy(counted, now - s.integratedTs), dirty := s.dirty || counted > 0.0, integratedTs := now)
  }

  function Started(s: State): State {
    if s.initialized then s else s.(accum := 0.0, lastRead := 0.0, initialized := true, dirty := true)
  }

  function PowerUpdated(cfg: Config, s: State, power: real, now: int): State {
    Integrated(cfg, Started(s), now).(hasPower := true, power := power, integratedTs := now)
  }

  function PowerStopped(cfg: Config, s: State, now: int): State {
    Integrated(cfg, s, now).(hasPower := false)
  }

  /** A source value, or the loss of it. */
  function Updated(cfg: Config, s: State, f: real, valid: bool, now: int): State {
    if s.disabled then s
    else if !valid then if cfg.integratePower then PowerStopped(cfg, s, now) else s
    else if cfg.integratePower then PowerUpdated(cfg, s, f * cfg.scale, now)
    else DeviceUpdated(cfg, s, f * cfg.scale, now)
  }

  /** A tick of the counter thread. */
  function Ticked(cfg: Config, s: State, now: int): State {
    if cfg.integratePower && !s.disabled && s.initialized then Integrated(cfg, s, now) else s
  }

  /** A state file; `Broken` stands for every content that cannot be loaded. */
  datatype File = Missing | Broken | Saved(accum: real, lastRead: real)

  const FRESH := State(false, false, 0.0, 0.0, false, false, 0, false, 0.0, 0)

  /** The state after a start; `readable` is false if the file exists but cannot be opened. */
  function Loaded(file: File, readable: bool): State {
    match file
    case Missing => FRESH
    case Broken => FRESH.(disabled := true)
    case Saved(accum, lastRead) =>
      if !readable || accum < 0.0 || lastRead < 0.0 then FRESH.(disabled := true)
      else FRESH.(accum := accum, lastRead := lastRead, initialized := true)
  }

  // ----- The code -----

  class Counter {
    const cfg: Config
    var disabled: bool
    var initialized: bool
    var accum: real
    var lastRead: real
    var dirty: bool
    var hasChange: bool
    var changeTs: int
    var hasPower: bool
    var power: real
    var integratedTs: int

    ghost function Now(): State
      reads this
    {
      State(disabled, initialized, accum, lastRead, dirty, hasChange, changeTs, hasPower, power, integratedTs)
    }

    /** load_state, into the zeroed structure. */
    constructor (cfg: Config, file: File, readable: bool)
      ensures this.cfg == cfg && Now() == Loaded(file, readable)
    {
      this.cfg := cfg;
      disabled, initialized, accum, lastRead, dirty := false, false, 0.0, 0.0, false;
      hasChange, changeTs, hasPower, power, integratedTs := false, 0, false, 0.0, 0;
      if file.Missing? {
      } else if file.Broken? || !readable || file.accum < 0.0 || file.lastRead < 0.0 {
        disabled := true;
      } else {
        accum, lastRead, initialized := file.accum, file.lastRead, true;
      }
    }

    /** source_update; `published` says whether the total is dispatched. */
    method SourceUpdate(f: real, valid: bool, now: int) returns (published: bool)
      modifies this
      ensures Now() == Updated(cfg, old(Now()), f, valid, now)
      ensures published <==> !disabled && valid && (cfg.integratePower || f * cfg.scale >= 0.0)
    {
      var ok, raw := true, f * cfg.scale;
      published := false;
      if !disabled {
        if !valid {
          if cfg.integratePower {
            PowerStop(now);
          }
          ok := false;
        } else if cfg.integratePower {
          PowerUpdate(raw, now);
        } else {
          ok := DeviceUpdate(raw, now);
        }
        if ok && initialized {
          published := true;
        }
      }
    }

    method DeviceUpdate(raw: real, now: int) returns (ok: bool)
      modifies this
      ensures Now() == DeviceUpdated(cfg, old(Now()), raw, now)
      ensures ok <==> raw >= 0.0
      ensures ok ==> initialized
    {
      if raw < 0.0 {
        return false;
      }
      if !initialized {
        accum, lastRead, initialized, dirty, hasChange, changeTs := raw, raw, true, true, true, now;
        return true;
      }
      if raw == lastRead {
        return true;
      }
      var delta := if raw < lastRead then raw else raw - lastRead;
      if cfg.maxPower > 0.0 && hasChange {
        var limit := cfg.maxPower * (now - changeTs) as real / MS_PER_HOUR;
        if delta > limit {
          delta := 0.0;
        }
      }
      accum, lastRead, dirty, hasChange, changeTs := accum + delta, raw, true, true, now;
      ok := true;
    }

    method PowerUpdate(p: real, now: int)
      modifies this
      ensures Now() == PowerUpdated(cfg, old(Now()), p, now)
    {
      if !initialized {
        accum, lastRead, initialized, dirty := 0.0, 0.0, true, true;
      }
      Integrate(now);
      hasPower, power, integratedTs := true, p, now;
    }

    method PowerStop(now: int)
      modifies this
      ensures Now() == PowerStopped(cfg, old(Now()), now)
    {
      Integrate(now);
      hasPower := false;
    }

    method Integrate(now: int)
      modifies this
      ensures Now() == Integrated(cfg, old(Now()), now)
    {
      if !hasPower {
        return;
      }
      if now > integratedTs {
        var p := power * cfg.sign as real;
        if p > 0.0 {
          accum := accum + p * (now - integratedTs) as real / MS_PER_HOUR;
          dirty := true;
        }
        integratedTs := now;
      }
    }

    /** The tick of counter_thread. */
    method Tick(now: int) returns (published: bool)
      modifies this
      ensures Now() == Ticked(cfg, old(Now()), now)
      ensures published <==> cfg.integratePower && !disabled && initialized
    {
      published := false;
      if !cfg.integratePower {
        return;
      }
      if !disabled && initialized {
        Integrate(now);
        published := true;
      }
    }
  }

  // ----- Device readings -----

  /** The total a counter without limit gains over readings that start after `last`. */
  function Gain(last: real, readings: seq<real>): real
    decreases readings
  {
    if readings == [] then 0.0 else Delta(last, readings[0]) + Gain(readings[0], readings[1..])
  }

  ghost predicate AreReadings(readings: seq<real>) {
    forall i :: 0 <= i < |readings| ==> readings[i] >= 0.0
  }

  /** Going from the first to the third reading directly hides nothing. */
  predicate DirectStep(a: real, b: real, c: real) {
    a <= b <= c || b <= c < a || a == b
  }

  /** The cost of a reading obeys the triangle inequality, with equality exactly if
      there is no reset, or only one which the third reading still shows. */
  lemma Triangle(a: real, b: real, c: real)
    requires a >= 0.0 && b >= 0.0 && c >= 0.0
    ensures Delta(a, c) <= Delta(a, b) + Delta(b, c)
    ensures Delta(a, c) == Delta(a, b) + Delta(b, c) <==> DirectStep(a, b, c)
  {
  }

  /** Missing all readings but the last one hides nothing. */
  ghost predicate NothingHidden(last: real, readings: seq<real>)
    requires readings != []
    decreases readings
  {
    |readings| > 1 ==>
      DirectStep(last, readings[0], readings[|readings| - 1]) && NothingHidden(readings[0], readings[1..])
  }

  /** A counter that goes on from an earlier reading and misses all readings but the
      last one never counts more than one that saw all, and counts the same exactly
      if nothing is hidden. */
  lemma {:induction false} RestartNeverOvercounts(last: real, readings: seq<real>)
    requires last >= 0.0 && AreReadings(readings) && readings != []
    ensures Delta(last, readings[|readings| - 1]) <= Gain(last, readings)
    ensures Delta(last, readings[|readings| - 1]) == Gain(last, readings) <==> NothingHidden(last, readings)
    decreases readings
  {
    if |readings| > 1 {
      var rest := readings[1..];
      assert rest[|rest| - 1] == readings[|readings| - 1];
      RestartNeverOvercounts(readings[0], rest);
      Triangle(last, readings[0], readings[|readings| - 1]);
    } else {
      assert readings[1..] == [];
    }
  }

  ghost predicate NoReset(last: real, readings: seq<real>) {
    && (readings != [] ==> last <= readings[0])
    && (forall i :: 0 <= i < |readings| - 1 ==> readings[i] <= readings[i + 1])
  }

  /** Without a device reset nothing is hidden. */
  lemma {:induction false} NoResetHidesNothing(last: real, readings: seq<real>)
    requires readings != [] && NoReset(last, readings)
    ensures NothingHidden(last, readings) && readings[|readings| - 1] >= last
    decreases readings
  {
    if |readings| > 1 {
      var rest := readings[1..];
      assert rest[0] == readings[1] && rest[|rest| - 1] == readings[|readings| - 1];
      NoResetHidesNothing(readings[0], rest);
    }
  }

  /** What a reading of the device counts. */
  lemma ReadingIsCounted(cfg: Config, s: State, f: real, now: int)
    requires IsConfig(cfg) && !cfg.integratePower && !s.disabled && f * cfg.scale >= 0.0
    ensures
      var s', raw := Updated(cfg, s, f, true, now), f * cfg.scale;
      var limit := cfg.maxPower * (now - s.changeTs) as real / 3600000.0;
      var limited := cfg.maxPower > 0.0 && s.hasChange;
      && s'.lastRead == raw && s'.initialized
      && (!s.initialized ==> s'.accum == raw && s'.hasChange && s'.changeTs == now)
      && (s.initialized && raw == s.lastRead ==> s' == s)
      && (s.initialized && raw != s.lastRead ==> s'.hasChange && s'.changeTs == now)
      && (s.initialized && raw > s.lastRead ==>
            s'.accum == if limited && raw - s.lastRead > limit then s.accum else s.accum + (raw - s.lastRead))
      && (s.initialized && raw < s.lastRead ==>
            s'.accum == if limited && raw > limit then s.accum else s.accum + raw)
  {
  }

  /** A source value of a run: number, validity and time. */
  datatype Sample = Sample(f: real, valid: bool, now: int)

  function Run(cfg: Config, s: State, samples: seq<Sample>): State {
    if samples == [] then s
    else
      var last := samples[|samples| - 1];
      Updated(cfg, Run(cfg, s, samples[..|samples| - 1]), last.f, last.valid, last.now)
  }

  /** The reading of the device that a sample brings, if it does. */
  predicate IsReadingOf(cfg: Config, x: Sample) {
    x.valid && x.f * cfg.scale >= 0.0
  }

  /** The reading before the last one: what the samples have shown so far. */
  function LastReading(cfg: Config, start: real, samples: seq<Sample>): real {
    if samples == [] then start
    else
      var last := samples[|samples| - 1];
      if IsReadingOf(cfg, last) then last.f * cfg.scale else LastReading(cfg, start, samples[..|samples| - 1])
  }

  /** The sum of all readings from which the device was reset to a smaller one. */
  function SumBeforeResets(cfg: Config, start: real, samples: seq<Sample>): real {
    if samples == [] then 0.0
    else
      var last, before := samples[|samples| - 1], samples[..|samples| - 1];
      var shown := LastReading(cfg, start, before);
      SumBeforeResets(cfg, start, before)
      + if IsReadingOf(cfg, last) && last.f * cfg.scale < shown then shown else 0.0
  }

  /** Without limit a counter shows what the device shows, and all it had shown before
      each reset: the total follows the device from the reading it starts from. */
  lemma {:induction false} TotalFollowsDevice(cfg: Config, s: State, samples: seq<Sample>)
    requires IsConfig(cfg) && !cfg.integratePower && cfg.maxPower == 0.0 && !s.disabled && s.initialized
    ensures
      var s' := Run(cfg, s, samples);
      && !s'.disabled && s'.initialized && s'.lastRead == LastReading(cfg, s.lastRead, samples)
      && s'.accum - s.accum == SumBeforeResets(cfg, s.lastRead, samples) + s'.lastRead - s.lastRead
  {
    if samples != [] {
      var n := |samples| - 1;
      TotalFollowsDevice(cfg, s, samples[..n]);
      if IsReadingOf(cfg, samples[n]) {
        ReadingIsCounted(cfg, Run(cfg, s, samples[..n]), samples[n].f, samples[n].now);
      }
    }
  }

  /** The times do not decrease and do not lie before `start`. */
  ghost predicate Ordered(start: int, samples: seq<Sample>) {
    && (forall i :: 0 <= i < |samples| ==> samples[i].now >= start)
    && (forall i :: 0 <= i < |samples| - 1 ==> samples[i].now <= samples[i + 1].now)
  }

  /** The sample changes the reading by more than the limit allows since the change
      before it. */
  predicate ExceedsLimit(cfg: Config, before: State, x: Sample) {
    var raw := x.f * cfg.scale;
    var rise := if raw < before.lastRead then raw else raw - before.lastRead;
    && IsReadingOf(cfg, x) && rise > 0.0
    && before.hasChange && rise > cfg.maxPower * (x.now - before.changeTs) as real / 3600000.0
  }

  ghost predicate NoneExceeds(cfg: Config, s: State, samples: seq<Sample>) {
    forall i :: 0 <= i < |samples| ==> !ExceedsLimit(cfg, Run(cfg, s, samples[..i]), samples[i])
  }

  lemma {:induction false} NoneExceedsStep(cfg: Config, s: State, samples: seq<Sample>)
    requires samples != []
    ensures
      var n := |samples| - 1;
      NoneExceeds(cfg, s, samples) <==>
        NoneExceeds(cfg, s, samples[..n]) && !ExceedsLimit(cfg, Run(cfg, s, samples[..n]), samples[n])
  {
    var n := |samples| - 1;
    forall i | 0 <= i < n ensures samples[..n][..i] == samples[..i] && samples[..n][i] == samples[i] {
    }
  }

  function Unlimited(cfg: Config): Config {
    cfg.(maxPower := 0.0)
  }

  /** Two counters that differ in nothing but their totals see the same sample. */
  lemma LimitStep(cfg: Config, limited: State, free: State, x: Sample)
    requires IsConfig(cfg) && !cfg.integratePower && cfg.maxPower > 0.0
    requires !limited.disabled && limited.initialized && limited.lastRead >= 0.0 && limited.changeTs <= x.now
    requires limited == free.(accum := limited.accum)
    ensures
      var limited' := Updated(cfg, limited, x.f, x.valid, x.now);
      var free' := Updated(Unlimited(cfg), free, x.f, x.valid, x.now);
      && limited' == free'.(accum := limited'.accum) && !limited'.disabled && limited'.initialized
      && limited'.lastRead >= 0.0 && limited.changeTs <= limited'.changeTs <= x.now
      && free'.accum - limited'.accum >= free.accum - limited.accum
      && (free'.accum - limited'.accum == free.accum - limited.accum <==> !ExceedsLimit(cfg, limited, x))
  {
    EnergyIsPositive(cfg.maxPower, x.now - limited.changeTs);
  }

  /** But for their totals, a counter with a limit and one without are in the same state. */
  lemma {:induction false} OnlyTotalsDiffer(cfg: Config, s: State, samples: seq<Sample>)
    requires IsConfig(cfg) && !cfg.integratePower && cfg.maxPower > 0.0
    requires !s.disabled && s.initialized && s.lastRead >= 0.0 && Ordered(s.changeTs, samples)
    ensures
      var limited, free := Run(cfg, s, samples), Run(Unlimited(cfg), s, samples);
      && limited == free.(accum := limited.accum) && limited.initialized && !limited.disabled && limited.lastRead >= 0.0
      && (samples != [] ==> limited.changeTs <= samples[|samples| - 1].now) && (samples == [] ==> limited == s)
  {
    if samples != [] {
      var n := |samples| - 1;
      OnlyTotalsDiffer(cfg, s, samples[..n]);
      assert n > 0 ==> samples[..n][n - 1].now <= samples[n].now;
      LimitStep(cfg, Run(cfg, s, samples[..n]), Run(Unlimited(cfg), s, samples[..n]), samples[n]);
    }
  }

  /** A limit never adds, and it takes nothing away exactly if no change exceeds it. */
  lemma {:induction false} LimitIsExactIff(cfg: Config, s: State, samples: seq<Sample>)
    requires IsConfig(cfg) && !cfg.integratePower && cfg.maxPower > 0.0
    requires !s.disabled && s.initialized && s.lastRead >= 0.0 && Ordered(s.changeTs, samples)
    ensures Run(cfg, s, samples).accum <= Run(Unlimited(cfg), s, samples).accum
    ensures Run(cfg, s, samples).accum == Run(Unlimited(cfg), s, samples).accum <==> NoneExceeds(cfg, s, samples)
  {
    if samples != [] {
      var n := |samples| - 1;
      var before := samples[..n];
      assert Ordered(s.changeTs, before) && (n > 0 ==> before[n - 1].now <= samples[n].now);
      LimitIsExactIff(cfg, s, before);
      OnlyTotalsDiffer(cfg, s, before);
      NoneExceedsStep(cfg, s, samples);
      LimitStep(cfg, Run(cfg, s, before), Run(Unlimited(cfg), s, before), samples[n]);
    }
  }

  lemma EnergySplits(power: real, t0: int, t1: int, t2: int)
    ensures Energy(power, t1 - t0) + Energy(power, t2 - t1) == Energy(power, t2 - t0)
  {
    assert (t2 - t0) as real == (t1 - t0) as real + (t2 - t1) as real;
  }

  /** With a limit, once a change is recorded the total never falls and never rises
      faster than the limit, whatever glitches and resets the device shows. */
  lemma {:induction false} RiseIsPlausible(cfg: Config, s: State, samples: seq<Sample>)
    requires IsConfig(cfg) && !cfg.integratePower && cfg.maxPower > 0.0
    requires !s.disabled && s.initialized && s.hasChange && s.lastRead >= 0.0 && Ordered(s.changeTs, samples)
    ensures
      var s' := Run(cfg, s, samples);
      && !s'.disabled && s'.initialized && s'.hasChange && s'.lastRead >= 0.0 && s.changeTs <= s'.changeTs
      && (samples != [] ==> s'.changeTs <= samples[|samples| - 1].now) && (samples == [] ==> s' == s)
      && s.accum <= s'.accum <= s.accum + Energy(cfg.maxPower, s'.changeTs - s.changeTs)
  {
    if samples != [] {
      var n := |samples| - 1;
      RiseIsPlausible(cfg, s, samples[..n]);
      var before, x := Run(cfg, s, samples[..n]), samples[n];
      assert n > 0 ==> samples[..n][n - 1].now <= x.now;
      EnergySplits(cfg.maxPower, s.changeTs, before.changeTs, x.now);
      EnergyIsPositive(cfg.maxPower, x.now - before.changeTs);
    }
  }

  lemma EnergyIsPositive(power: real, ms: int)
    requires power >= 0.0 && ms >= 0
    ensures Energy(power, ms) >= 0.0
  {
  }
}
