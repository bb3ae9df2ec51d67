/** Saving, crashing and reloading a counter while readings go on. */
module CounterSave {
  import opened Counter

  /** What has been copied for a save that is under way. */
  datatype Copy = NoCopy | Copied(accum: real, lastRead: real)

  /** The process with its counter, if it runs, and the state file.  `total` and
      `last` belong to a counter without limit that never crashed and has seen every
      reading of the device. */
  datatype System = System(up: bool, c: State, copy: Copy, file: File, total: real, last: real)

  datatype Action =
    | Source(f: real, valid: bool, now: int)   // a source value, seen if the process runs
    | Tick(now: int)
    | Take                                     // save_states copies the state and clears dirty
    | Save                                     // the file is replaced
    | Fail                                     // the write fails
    | Crash
    | Start(readable: bool)                    // load_state

  predicate Enabled(s: System, a: Action) {
    match a
    case Source(_, _, _) => true
    case Tick(_) => s.up
    case Take => s.up && s.copy.NoCopy?
    case Save | Fail => s.up && s.copy.Copied?
    case Crash => s.up
    case Start(_) => !s.up
  }

  /** The reading of the device, if the source value is one. */
  predicate IsReading(cfg: Config, f: real, valid: bool) {
    valid && f * cfg.scale >= 0.0
  }

  function Do(cfg: Config, s: System, a: Action): System
    requires Enabled(s, a)
  {
    match a
    case Source(f, valid, now) =>
      var raw := f * cfg.scale;
      var seen := if s.up then s.(c := Updated(cfg, s.c, f, valid, now)) else s;
      if IsReading(cfg, f, valid) then seen.(total := s.total + Delta(s.last, raw), last := raw) else seen
    case Tick(now) => s.(c := Ticked(cfg, s.c, now))
    case Take => s.(c := s.c.(dirty := false), copy := if s.c.dirty then Copied(s.c.accum, s.c.lastRead) else NoCopy)
    case Save => s.(copy := NoCopy, file := Saved(s.copy.accum, s.copy.lastRead))
    case Fail => s.(copy := NoCopy, c := s.c.(dirty := true))
    case Crash => s.(up := false, copy := NoCopy, c := FRESH)
    case Start(readable) => s.(up := true, c := Loaded(s.file, readable))
  }

  // ----- The save protocol -----

  /** Nothing has been counted yet. */
  ghost predicate IsBlank(s: State) {
    !s.dirty && !s.hasPower && s.accum == 0.0 && s.lastRead == 0.0
  }

  /** What is not dirty and not under way is in the file. */
  ghost predicate SaveInv(s: System) {
    && (!s.up ==> s.copy.NoCopy?)
    && (s.up && s.c.disabled ==> !s.c.dirty && s.copy.NoCopy?)
    && (s.up && !s.c.initialized ==> IsBlank(s.c) && s.copy.NoCopy?)
    && (s.up && !s.c.initialized && !s.c.disabled ==> s.file.Missing?)
    && (s.up && s.c.initialized ==> !s.c.disabled && s.c.accum >= 0.0 && s.c.lastRead >= 0.0)
    && (s.up && s.c.initialized && !s.c.dirty && s.copy.NoCopy? ==> s.file == Saved(s.c.accum, s.c.lastRead))
    && (s.up && !s.c.dirty && s.copy.Copied? ==> s.copy == Copied(s.c.accum, s.c.lastRead))
    && (s.copy.Copied? ==> s.copy.accum >= 0.0 && s.copy.lastRead >= 0.0)
    && (s.up && s.file.Broken? ==> s.c.disabled)
  }

  /** Totals and readings never get negative, and every change marks the state dirty. */
  lemma UpdateMarksDirty(cfg: Config, s: State, f: real, valid: bool, now: int)
    requires IsConfig(cfg) && (!s.initialized ==> IsBlank(s)) && s.accum >= 0.0 && s.lastRead >= 0.0
    ensures
      var s' := Updated(cfg, s, f, valid, now);
      && s'.disabled == s.disabled && s'.accum >= 0.0 && s'.lastRead >= 0.0
      && (s.initialized ==> s'.initialized) && (s.disabled ==> s' == s)
      && (s.dirty ==> s'.dirty)
      && (!s'.initialized ==> IsBlank(s'))
      && (s'.initialized && !s'.dirty ==> s.initialized && s'.accum == s.accum && s'.lastRead == s.lastRead)
  {
    if cfg.integratePower {
      IntegrateMarksDirty(cfg, if valid then Started(s) else s, now);
    }
  }

  lemma IntegrateMarksDirty(cfg: Config, s: State, now: int)
    requires s.accum >= 0.0
    ensures
      var s' := Integrated(cfg, s, now);
      && s'.accum >= s.accum && (s.dirty ==> s'.dirty) && (!s'.dirty ==> s'.accum == s.accum)
      && s' == s.(accum := s'.accum, dirty := s'.dirty, integratedTs := s'.integratedTs)
  {
    if s.hasPower && now > s.integratedTs {
      EnergyIsPositive(Positive(s.power * cfg.sign as real), now - s.integratedTs);
    }
  }

  lemma StepSave(cfg: Config, s: System, a: Action)
    requires IsConfig(cfg) && SaveInv(s) && Enabled(s, a)
    ensures SaveInv(Do(cfg, s, a))
    ensures s.up && s.c.disabled ==> Do(cfg, s, a).file == s.file
    ensures s.file.Broken? ==> Do(cfg, s, a).file.Broken?
  {
    if s.up && a.Source? {
      UpdateMarksDirty(cfg, s.c, a.f, a.valid, a.now);
    } else if a.Tick? {
      IntegrateMarksDirty(cfg, s.c, a.now);
    }
  }

  ghost predicate Init(s: System) {
    && !s.up && s.copy.NoCopy?
    && match s.file
       case Saved(accum, lastRead) => accum >= 0.0 && lastRead >= 0.0 && s.total == accum && s.last == lastRead
       case _ => s.total == 0.0 && s.last == 0.0
  }

  ghost predicate IsRun(cfg: Config, run: seq<System>, steps: seq<Action>) {
    && |run| == |steps| + 1 && Init(run[0])
    && (forall i :: 0 <= i < |steps| ==> Enabled(run[i], steps[i]) && run[i + 1] == Do(cfg, run[i], steps[i]))
  }

  /** In every run of updates, saves that succeed or fail, crashes and starts: a
      running counter that is initialised, not dirty and not being saved has its file
      equal to its state, so a failed save is never forgotten. */
  lemma {:induction false} SavedUnlessDirty(cfg: Config, run: seq<System>, steps: seq<Action>, n: nat)
    requires IsConfig(cfg) && IsRun(cfg, run, steps) && n < |run|
    ensures SaveInv(run[n])
    ensures run[n].up && run[n].c.initialized && !run[n].c.dirty && run[n].copy.NoCopy? ==>
      run[n].file == Saved(run[n].c.accum, run[n].c.lastRead)
  {
    if n > 0 {
      SavedUnlessDirty(cfg, run, steps, n - 1);
      StepSave(cfg, run[n - 1], steps[n - 1]);
    }
  }

  /** A file that cannot be loaded stays as it is in every run, and no step of a
      disabled counter changes its file. */
  lemma {:induction false} BrokenFileIsKept(cfg: Config, run: seq<System>, steps: seq<Action>, m: nat, n: nat)
    requires IsConfig(cfg) && IsRun(cfg, run, steps) && m <= n < |run|
    ensures run[m].file.Broken? ==> run[n].file.Broken?
    ensures n < |steps| && run[n].up && run[n].c.disabled ==> run[n + 1].file == run[n].file
  {
    SavedUnlessDirty(cfg, run, steps, n);
    if n < |steps| {
      StepSave(cfg, run[n], steps[n]);
    }
    if m < n {
      BrokenFileIsKept(cfg, run, steps, m, n - 1);
      SavedUnlessDirty(cfg, run, steps, n - 1);
      StepSave(cfg, run[n - 1], steps[n - 1]);
    }
  }

  // ----- Crash and reload never over-count -----

  /** Going on from this total and reading cannot get ahead of the counter that never
      crashed. */
  ghost predicate Behind(accum: real, lastRead: real, s: System) {
    lastRead >= 0.0 && accum + Delta(lastRead, s.last) <= s.total
  }

  ghost predicate NeverAhead(s: System) {
    && s.last >= 0.0
    && (s.up && !s.c.disabled ==> Behind(s.c.accum, s.c.lastRead, s))
    && (s.copy.Copied? ==> Behind(s.copy.accum, s.copy.lastRead, s))
    && (s.file.Saved? ==> Behind(s.file.accum, s.file.lastRead, s))
    && (s.file.Missing? ==> Behind(0.0, 0.0, s))
  }

  lemma ReadingKeepsBehind(cfg: Config, s: System, a: Action, accum: real, lastRead: real)
    requires Enabled(s, a) && a.Source? && s.last >= 0.0 && Behind(accum, lastRead, s)
    ensures Behind(accum, lastRead, Do(cfg, s, a))
  {
    if IsReading(cfg, a.f, a.valid) {
      Triangle(lastRead, s.last, a.f * cfg.scale);
    }
  }

  lemma UpdateStaysBehind(cfg: Config, s: System, a: Action)
    requires IsConfig(cfg) && !cfg.integratePower && Enabled(s, a) && a.Source?
    requires s.up && !s.c.disabled && s.last >= 0.0 && Behind(s.c.accum, s.c.lastRead, s)
    requires !s.c.initialized ==> IsBlank(s.c)
    ensures Behind(Do(cfg, s, a).c.accum, Do(cfg, s, a).c.lastRead, Do(cfg, s, a))
  {
    if IsReading(cfg, a.f, a.valid) {
      Triangle(s.c.lastRead, s.last, a.f * cfg.scale);
    }
  }

  lemma SourceNeverAhead(cfg: Config, s: System, a: Action)
    requires IsConfig(cfg) && !cfg.integratePower
    requires SaveInv(s) && NeverAhead(s) && Enabled(s, a) && a.Source?
    ensures NeverAhead(Do(cfg, s, a))
  {
    if s.up && !s.c.disabled {
      UpdateStaysBehind(cfg, s, a);
    }
    if s.copy.Copied? {
      ReadingKeepsBehind(cfg, s, a, s.copy.accum, s.copy.lastRead);
    }
    if s.file.Saved? {
      ReadingKeepsBehind(cfg, s, a, s.file.accum, s.file.lastRead);
    }
    if s.file.Missing? {
      ReadingKeepsBehind(cfg, s, a, 0.0, 0.0);
    }
  }

  lemma StepNeverAhead(cfg: Config, s: System, a: Action)
    requires IsConfig(cfg) && !cfg.integratePower
    requires SaveInv(s) && NeverAhead(s) && Enabled(s, a)
    ensures NeverAhead(Do(cfg, s, a))
  {
    if a.Source? {
      SourceNeverAhead(cfg, s, a);
    }
  }

  /** In every run, with readings lost while the process is down and saves that fail,
      a device counter is never ahead of one without limit that never crashed, and
      neither is any state it could be restarted from. */
  lemma {:induction false} CrashesNeverOvercount(cfg: Config, run: seq<System>, steps: seq<Action>, n: nat)
    requires IsConfig(cfg) && !cfg.integratePower
    requires IsRun(cfg, run, steps) && n < |run|
    ensures NeverAhead(run[n])
    ensures run[n].up && !run[n].c.disabled ==> run[n].c.accum <= run[n].total
  {
    if n > 0 {
      CrashesNeverOvercount(cfg, run, steps, n - 1);
      SavedUnlessDirty(cfg, run, steps, n - 1);
      StepNeverAhead(cfg, run[n - 1], steps[n - 1]);
    }
  }

  /** Nothing is missing but what the next reading brings. */
  ghost predicate InSync(accum: real, lastRead: real, s: System) {
    0.0 <= lastRead <= s.last && accum + (s.last - lastRead) == s.total
  }

  /** What a run has kept in sync: the running counter, the copy being saved, the file. */
  datatype Synced = Synced(c: bool, copy: bool, file: bool)

  /** The counter has seen the last reading. */
  predicate CaughtUp(s: System) {
    s.up && !s.c.disabled && s.c.initialized && s.c.lastRead == s.last
  }

  predicate IsReset(cfg: Config, s: System, a: Action) {
    a.Source? && IsReading(cfg, a.f, a.valid) && a.f * cfg.scale < s.last
  }

  /** A device reset breaks what has not seen the reading before it: a snapshot in a copy
      or the file for good, the counter only if it has not caught up since its start. */
  function Keeps(cfg: Config, s: System, a: Action, k: Synced): Synced {
    match a
    case Source(_, _, _) => if IsReset(cfg, s, a) then Synced(k.c && CaughtUp(s), false, false) else k
    case Take => k.(copy := k.c)
    case Save => k.(file := k.copy)
    case Start(_) => k.(c := k.file)
    case _ => k
  }

  ghost function KeptSince(cfg: Config, run: seq<System>, steps: seq<Action>, m: nat, n: nat): Synced
    requires m <= n <= |steps| && n < |run|
  {
    if n == m then Synced(true, true, true)
    else Keeps(cfg, run[n - 1], steps[n - 1], KeptSince(cfg, run, steps, m, n - 1))
  }

  ghost predicate AreInSync(s: System, k: Synced) {
    && (k.file && s.file.Saved? ==> InSync(s.file.accum, s.file.lastRead, s))
    && (k.file && s.file.Missing? ==> InSync(0.0, 0.0, s))
    && (k.copy && s.copy.Copied? ==> InSync(s.copy.accum, s.copy.lastRead, s))
    && (k.c && s.up && !s.c.disabled ==> InSync(s.c.accum, s.c.lastRead, s))
  }

  lemma ReadingKeepsInSync(cfg: Config, s: System, a: Action, accum: real, lastRead: real)
    requires Enabled(s, a) && a.Source? && !IsReset(cfg, s, a) && InSync(accum, lastRead, s)
    ensures InSync(accum, lastRead, Do(cfg, s, a))
  {
  }

  lemma SourceKeepsInSync(cfg: Config, s: System, a: Action, k: Synced)
    requires IsConfig(cfg) && !cfg.integratePower && cfg.maxPower == 0.0
    requires AreInSync(s, k) && SaveInv(s) && Enabled(s, a) && a.Source?
    ensures AreInSync(Do(cfg, s, a), Keeps(cfg, s, a, k))
  {
    if !IsReset(cfg, s, a) {
      if k.copy && s.copy.Copied? {
        ReadingKeepsInSync(cfg, s, a, s.copy.accum, s.copy.lastRead);
      }
      if k.file && s.file.Saved? {
        ReadingKeepsInSync(cfg, s, a, s.file.accum, s.file.lastRead);
      }
    }
  }

  lemma StepKeepsInSync(cfg: Config, s: System, a: Action, k: Synced)
    requires IsConfig(cfg) && !cfg.integratePower && cfg.maxPower == 0.0
    requires AreInSync(s, k) && SaveInv(s) && Enabled(s, a)
    ensures AreInSync(Do(cfg, s, a), Keeps(cfg, s, a, k))
  {
    if a.Source? {
      SourceKeepsInSync(cfg, s, a, k);
    }
  }

  /** Whatever crashes, lost readings and failed saves come: a counter that has seen the
      last reading has counted exactly as much as one that never crashed, if since
      every start no device reset fell between the snapshot in the file it was started
      from and the first reading it saw.  Resets that it sees do not matter. */
  lemma {:induction false} CountsTheSame(cfg: Config, run: seq<System>, steps: seq<Action>, m: nat, n: nat)
    requires IsConfig(cfg) && !cfg.integratePower && cfg.maxPower == 0.0
    requires IsRun(cfg, run, steps) && m <= n < |run|
    requires AreInSync(run[m], Synced(true, true, true))
    ensures AreInSync(run[n], KeptSince(cfg, run, steps, m, n))
    ensures KeptSince(cfg, run, steps, m, n).c && CaughtUp(run[n]) ==> run[n].c.accum == run[n].total
  {
    if m < n {
      CountsTheSame(cfg, run, steps, m, n - 1);
      SavedUnlessDirty(cfg, run, steps, n - 1);
      StepKeepsInSync(cfg, run[n - 1], steps[n - 1], KeptSince(cfg, run, steps, m, n - 1));
    }
  }

  /** A run starts in sync, and so does everything after a save of an exact counter. */
  lemma StartsInSync(cfg: Config, s: System)
    requires Init(s) ||
      (SaveInv(s) && CaughtUp(s) && s.c.accum == s.total && !s.c.dirty && s.copy.NoCopy? && s.last >= 0.0)
    ensures AreInSync(s, Synced(true, true, true))
  {
  }

  /** Without any reset everything is kept. */
  lemma {:induction false} NoResetKeepsAll(cfg: Config, run: seq<System>, steps: seq<Action>, m: nat, n: nat)
    requires m <= n <= |steps| && n < |run| && forall i :: m <= i < n ==> !IsReset(cfg, run[i], steps[i])
    ensures KeptSince(cfg, run, steps, m, n) == Synced(true, true, true)
  {
    if m < n {
      NoResetKeepsAll(cfg, run, steps, m, n - 1);
    }
  }

  /** A counter that has missed nothing stays exact through resets it sees. */
  lemma SeenReadingsAreExact(cfg: Config, s: System, a: Action)
    requires IsConfig(cfg) && !cfg.integratePower && cfg.maxPower == 0.0 && Enabled(s, a) && a.Source?
    requires CaughtUp(s) && s.c.accum == s.total
    ensures CaughtUp(Do(cfg, s, a)) && Do(cfg, s, a).c.accum == Do(cfg, s, a).total
  {
  }

  // ----- The code of save_states -----

  /** save_states for one counter; `write` is what writing the file returns. */
  method SaveState(c: Counter, file: File, write: bool) returns (file': File)
    modifies c
    ensures c.Now() == old(c.Now()).(dirty := old(c.dirty) && !write)
    ensures file' == if old(c.dirty) && write then Saved(c.accum, c.lastRead) else file
  {
    var dirty, accum, lastRead := c.dirty, c.accum, c.lastRead;
    c.dirty := false;
    file' := file;
    if dirty {
      if write {
        file' := Saved(accum, lastRead);
      } else {
        c.dirty := true;
      }
    }
  }

  /** Without updates in between, save_states is the steps Take and Save or Fail. */
  lemma SaveStateIsSteps(cfg: Config, s: System, write: bool)
    requires SaveInv(s) && s.up && s.copy.NoCopy?
    ensures
      var taken := Do(cfg, s, Take);
      var s' := if taken.copy.NoCopy? then taken else Do(cfg, taken, if write then Save else Fail);
      && s'.c == s.c.(dirty := s.c.dirty && !write) && s'.copy.NoCopy?
      && s'.file == if s.c.dirty && write then Saved(s.c.accum, s.c.lastRead) else s.file
  {
  }

  /** A saved state is loaded as it was, ready for the next reading. */
  lemma LoadAfterSave(s: System)
    requires SaveInv(s) && s.up && s.c.initialized && !s.c.dirty && s.copy.NoCopy?
    ensures Loaded(s.file, true) == FRESH.(initialized := true, accum := s.c.accum, lastRead := s.c.lastRead)
  {
  }
}
