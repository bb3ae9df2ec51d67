# Verification of the uvrgw value network

uvrgw moves values between field buses, MQTT and computed values. This project
models the five components in which its guarantees are decided and proves what
they promise:

- **The expression compiler** (tinyexpr). `TinyExpr`, `Grammar`, `Printing`,
  `Compiler` and `Acceptance` are the specification: trees, evaluation, folding,
  the grammar, and a printer that sets the parentheses precedence requires and
  those the author wants; the parser reads what it prints, and nothing else.
  `Precedence` says what that means for the tokens, without levels and printer: which
  operator of a text is applied last, and what unary operators, parentheses and calls
  apply to. `ErrorPosition` says where a syntax error is found. `TreeNodes`,
  `PowerChain` and `ParserCode` are the code: nodes on the heap that are rewired
  through a slot and overwritten in place, proved against the specification.
  `Ncr` is the integer arithmetic of the binomial coefficient. Numbers are a type
  parameter, so the results hold for IEEE doubles; laws are assumed only where a
  lemma names them.
- **The eval network**. `EvalDeps` and `EvalCompile` extract and close the
  dependencies, `EvalStep` is one evaluation, runs of them, and what they depend on,
  `EvalCycles` the search for trigger cycles, `EvalWorker` the worker thread
  among the threads that trigger it.
- **The dispatcher** (`Dispatcher`): producers, watchdog and readers racing for
  one name, and the nesting of all locks (`LockOrder`).
- **Persistent counters**: `Counter` (the code, readings, limit), `CounterPower`
  (integration) and `CounterSave` (saving, crashing, reloading). Doubles are reals.
- **The Modbus write queue** (`Modbus`), with a device that may apply a write it
  reports as failed, and the walk over the output list (`ModbusWalk`).

Threads are interleaved state machines: the steps are the critical sections of
the code, in the granularity at which another thread could observe them. The
sequential code of a critical section is a class whose methods are proved to
have the effect of those steps. Clocks, received values, the success of writes
and the scheduler are parameters of the steps.

## What was found

- `-!x` does not equal its operators applied one by one. `power` collapses it to
  a function that negates the C integer `0`, which gives `0.0` where the separate
  operators give `-0.0`. `Compiler.CollapseIsExactIff` says exactly when a run of
  unary operators may be collapsed: always, except that numbers have a negative
  zero and the run has an odd number of `-` in front of a `!`.
- The operator tables (README.md:608-611, doc/eval.md:343) list unary operators
  above `^`. The code, built with `TE_POW_FROM_RIGHT`, lets `^` bind tighter, as
  the same tables say in their example `-2^2 = -4`. The model follows the code.
- A tick that overtakes a source value makes a power counter count time twice.
  Both sample their time before they take the lock of the counter (counter.c:282-287,
  counter.c:448-458). If the tick samples later but locks first, `power_update`
  moves `integrated_ts` back (counter.c:389), and the time in between is integrated
  again. `CounterPower.IntegrationIsSum` gives the total for every order of events,
  with what is counted twice; `CounterPower.IntegrationIsExactIff` says when it is
  exact: if and only if no source value or loss is older than a tick before it while
  a power that counts is held. Ticks that come late do no harm.
  A device counter is not affected: it has no ticks, and its readings sample their
  times under the dispatch lock of the source, so they are always in order, as
  `Counter.RiseIsPlausible` needs them to be.
- `ncr` gives infinity where a product of its loop exceeds ULONG_MAX, which is not
  where the result does: exactly if k * C(n, r) > ULONG_MAX, k the smaller one of r
  and n - r (`Ncr.NCR`).
- The check against chained counters is needed for more than accounting:
  `LockOrder.ChainedCountersDeadlock` gives a schedule of two threads that
  deadlocks two counters which read each other.
- A Modbus output that always fails starves the outputs behind it: its failure
  pauses the slave, and during the pause `master_task` sets the walk over the
  output list back to its head (`ModbusWalk.FailingOutputStarvesOthers`, for any
  position in the list, whatever the other outputs do, from any moment at which the
  walk is not past the output, as after every return to the head). An output that is pending
  all the time is attempted in a walk if and only if no output before it fails in
  that walk (`ModbusWalk.AttemptedIffNoneBeforeFails`), and if none before it fails, it
  is attempted within a bounded number of turns, whatever fails behind it
  (`ModbusWalk.PendingIsServed`).

## Model

| member | source | states |
|---|---|---|
| `TinyExpr.EvalReadsOnlyVars` | tinyexpr/tinyexpr.c:883-921 | te_eval depends on no slot other than those of the variables in the tree |
| `TinyExpr.VarsAreRead` | tinyexpr/tinyexpr.c:883-921 | every variable in the tree can change its value: with functions that pass a mark on, the value is marked exactly if one of these variables is |
| `TinyExpr.FoldPreservesMeaning` | tinyexpr/tinyexpr.c:926-949 | folding changes neither the value of a tree in any memory nor the variables the dependency walk can find, also if impure functions compute something else at run time |
| `TinyExpr.FoldIsComplete` | tinyexpr/tinyexpr.c:926-949 | after folding no pure function node has only constant parameters, as far down as pure nodes reach |
| `TreeNodes.Node.TeEval` | tinyexpr/tinyexpr.c:883-921 | the recursion over heap nodes computes the value of the tree they form |
| `TreeNodes.Node.Optimize` | tinyexpr/tinyexpr.c:926-949 | overwriting nodes in place leaves a valid tree that is the folded one, using no other nodes than before |
| `Grammar.AcceptedTreeIsWellFormed` | tinyexpr/tinyexpr.c:952-978 | every tree te_compile returns has exactly as many parameters as its function takes, none NULL, at every node, and is folded as far as possible |
| `Printing.ReadsBase` | tinyexpr/tinyexpr.c:460-582 | `base` reads a printed primary, call or parenthesised expression back, consuming exactly its tokens, or gives up exactly if it nests deeper than TE_MAX_DEPTH |
| `Printing.ReadsArgs` | tinyexpr/tinyexpr.c:538-556 | the parameter loop reads a printed parameter list back as exactly those parameters |
| `Printing.ReadsPower` | tinyexpr/tinyexpr.c:585-645 | `power` reads a printed run of unary operators and its operand back |
| `Printing.ReadsFactor` | tinyexpr/tinyexpr.c:648-701 | `factor` reads a printed power chain back, right associative, with unary operators on base and exponents where the author put them |
| `Printing.ReadsLevel` | tinyexpr/tinyexpr.c:727-876 | each of the seven operator levels reads a printed expression of its precedence back |
| `Compiler.CollapseIsExactIff` | tinyexpr/tinyexpr.c:585-645 | collapsing a run of `-`, `+`, `!` to at most one node equals applying them one by one, if and only if there is no negative zero or the run negates no `!` |
| `Compiler.TreeMeans` | tinyexpr/tinyexpr.c:585-701 | in every arithmetic and memory the tree has the value of the expression with each unary run applied as the one function `power` picks, which is the value as written wherever collapsing is exact |
| `Compiler.CompileInvertsPrinting` | tinyexpr/tinyexpr.c:952-978 | compiling a printed expression succeeds exactly when it nests at most TE_MAX_DEPTH deep, and then yields a tree with that value in every memory |
| `Acceptance.AcceptsExactlyPrintings` | tinyexpr/tinyexpr.c:952-978 | te_compile accepts a text exactly if it is a printed expression, with any parentheses beyond the required ones, that nests at most TE_MAX_DEPTH deep |
| `Acceptance.AcceptedMeans` | tinyexpr/tinyexpr.c:952-978 | everything accepted is a printed expression whose folded tree is returned, with the value of that expression in every memory |
| `ErrorPosition.ErrorIsAtFirstImpossibleToken` | tinyexpr/tinyexpr.c:952-978 | a syntax error is found at the first token with which the text no longer begins any expression; what is in front of it can be completed |
| `Precedence.OperatorsBindByClass` | tinyexpr/tinyexpr.c:648-876 | of two operators between numbers or names that of the tighter class is applied first, wherever it stands, the classes being comma, logical or, logical and, equality, relation, sum, product, power; within a class from left to right, powers from right to left |
| `Precedence.LoosestIsAppliedLast` | tinyexpr/tinyexpr.c:727-876 | in a chain of any length the last one of the operators that bind least is applied last, to the values of the two sides |
| `Precedence.PowerIsRightAssociative` | tinyexpr/tinyexpr.c:648-701 | `^` takes the whole chain to its right as its exponent, and unary operators in front of its base apply to the whole power |
| `Precedence.ChainIsAccepted` | tinyexpr/tinyexpr.c:460-471 | a chain is accepted exactly if none of its operands nests too deeply |
| `Precedence.UnaryOperatorsApply` | tinyexpr/tinyexpr.c:585-701 | `-`, `+` and `!` negate, keep and invert what is behind them: a whole power, also inside an exponent, but only the operand in front of any other operator |
| `Precedence.SignsApply` | tinyexpr/tinyexpr.c:585-645 | any run of unary operators in front of one operand is applied to the value of that operand, as the one function that stands for the run |
| `Precedence.ParenthesesGroup` | tinyexpr/tinyexpr.c:560-571 | parentheses make their contents one operand on either side of any operator |
| `Precedence.CallAppliesInOrder` | tinyexpr/tinyexpr.c:538-556 | a function is applied to its parameters in the order they are written |
| `Precedence.CallBindsTightest` | tinyexpr/tinyexpr.c:513-523 | a function of one parameter takes the operand behind it, without any operator that follows |
| `Precedence.CallWithoutParameters` | tinyexpr/tinyexpr.c:495-511 | a function of no parameters may be written with or without parentheses |
| `Precedence.NestingLimit` | tinyexpr/tinyexpr.c:460-471 | exactly up to 511 parentheses around an operand are accepted, more of them give -1 |
| `PowerChain.FinishStep` | tinyexpr/tinyexpr.c:667-690 | putting one more exponent into the slot keeps the tree that the recursive rule would build |
| `PowerChain.SlotLoopIsRecursiveRule` | tinyexpr/tinyexpr.c:648-701 | the loop with the moving slot builds the tree of the rule factor = unary (base ^ factor) |
| `PowerChain.InsertAtSlot` | tinyexpr/tinyexpr.c:675-681 | replacing the contents of the slot by a power node keeps the chain above it intact |
| `PowerChain.InsertExponent` | tinyexpr/tinyexpr.c:675-689 | one exponent is inserted and the slot moves behind it, inside a unary exponent if there is one |
| `PowerChain.FinishChain` | tinyexpr/tinyexpr.c:692-700 | the finished chain with its leading unary operator is a valid heap tree with the value built up |
| `ParserCode.Parser.Base` | tinyexpr/tinyexpr.c:460-471 | the depth guard and base_impl return the heap tree and the remaining input of the grammar |
| `ParserCode.Parser.Arguments` | tinyexpr/tinyexpr.c:538-556 | the loop that fills parameters in place, with its break and error exits, builds the node of the grammar |
| `ParserCode.Parser.Power` | tinyexpr/tinyexpr.c:585-645 | the two operator loops and the node built from them are those of the grammar, and applied_unary says whether a unary node was written |
| `ParserCode.Parser.Factor` | tinyexpr/tinyexpr.c:648-701 | the iterative power builder on the heap returns the tree of the recursive rule |
| `ParserCode.Parser.Level` | tinyexpr/tinyexpr.c:727-876 | the left-associative loops return the trees of the grammar |
| `ParserCode.TeCompile` | tinyexpr/tinyexpr.c:952-978 | te_compile returns the folded tree with error 0, NULL with the position the lexer has reached behind the token at which the parser stops (at least 1), or NULL with -1 if nested too deeply |
| `Ncr.RoundIsExact` | tinyexpr/tinyexpr.c:158-163 | the product of a round is divisible by i, and the quotient is the next binomial coefficient |
| `Ncr.BinomialByFactorials` | tinyexpr/tinyexpr.c:158-163 | the coefficient meant: C(n, k) k! (n - k)! = n! |
| `Ncr.Choose` | tinyexpr/tinyexpr.c:158-163 | the loop returns exactly the binomial coefficient C(n, k), or stops exactly if k C(n, k) exceeds ULONG_MAX; no product it computes ever does |
| `Ncr.NCR` | tinyexpr/tinyexpr.c:152-165 | NaN exactly outside 0 <= r <= n; otherwise INFINITY exactly for arguments above UINT_MAX or if k C(n, r) exceeds ULONG_MAX, k the smaller of r and n - r, and else exactly the binomial coefficient |
| `EvalDeps.AddIndex` | eval.c:424-443 | the index is appended unless it is contained |
| `EvalDeps.NeedsIsLeastFixedPoint` | eval.c:424-474 | the outside values needed directly or through refs are the least family that holds the direct ones and is closed under reading |
| `EvalDeps.CloseInputs` | eval.c:452-474 | close_inputs terminates and leaves, without duplicates, exactly the outside values directly read by some own value reachable through refs |
| `EvalCompile.DepWalk.Walk` | eval.c:373-414 | the walk records exactly the other own values and the outside values the tree reads |
| `EvalCompile.NeedsIsDependsOn` | eval.c:362-474 | what the lists say is needed is what the expressions depend on |
| `EvalCompile.CompileEval` | eval.c:280-297 | after walking and closing, the list of each value holds exactly the outside values its expression depends on, also through other values and itself |
| `EvalStep.Evaluator.constructor` | eval.c:219-306 | a compiled eval starts at the init_values, with a slot for every variable and lists that are exact |
| `EvalStep.Evaluator.Refresh` | eval.c:917-920 | every outside value read gets number and validity, no other slot changes |
| `EvalStep.Evaluator.Evaluate` | eval.c:908-952 | every value sees its own dt, refreshed outside values, new results above and old results of itself and below; it keeps its number if not finite and is valid exactly if finite with all dependencies valid |
| `EvalStep.DtIsTimeSinceFinite` | eval.c:923-949 | in every run dt of a value is the time since the evaluation before if its result was finite then, and 0 otherwise and at the first evaluation |
| `EvalStep.NumberIsLastFinite` | eval.c:926-939 | in every run the number of a value is its last finite result, or its init_value before any |
| `EvalStep.StepAgrees` | eval.c:908-952 | one evaluation keeps two memories equal on everything a value reads through, if they agree there and on its dependencies |
| `EvalStep.Noninterference` | eval.c:908-960 | two runs with equal times that agree on the outside values a value depends on give it the same number, validity and dt after every evaluation |
| `EvalStep.DependenceReaches` | eval.c:373-474 | an outside value in the list of a value can change it: a mark on it reaches the value along every path of values that read each other, within as many evaluations as the path has values |
| `EvalStep.NothingElseReaches` | eval.c:373-474 | no mark on any other outside value ever reaches the value |
| `EvalCycles.EvalOf` | eval.c:650-664 | the eval publishing a name, or none |
| `EvalCycles.TriggeredBy` | eval.c:632-642 | whether one eval publishes a trigger of another one |
| `EvalCycles.RoomLeft` | eval.c:581-588 | the depth of the search stays below the number of evals, so the path array is large enough |
| `EvalCycles.CycleCheck.Visit` | eval.c:581-627 | the evals on the stack are those on the path; on failure the logged evals are a real cycle; on success all evals triggered are finished before |
| `EvalCycles.CheckCycles` | eval.c:547-571 | succeeds exactly if no chain of triggers returns to its start, and then yields an order in which every eval comes after those it triggers |
| `EvalWorker.StepNotLost` | eval.c:827-901 | no step of worker, dispatches or scheduler loses the trigger of an eval |
| `EvalWorker.RunKeepsTriggers` | eval.c:844-901 | in every interleaving each trigger read is up to date, pending, about to be read or about to fire; the worker waits for a signal only with no triggered eval pending |
| `EvalWorker.QuietIsUpToDate` | eval.c:883-890 | when the worker sleeps and nothing is being dispatched, every eval has read the last stored value of all its triggers it reads |
| `EvalWorker.EvaluationPublishes` | eval.c:955-959 | in every interleaving an evaluation stores, between its readings and the next scan, each name as often as it publishes it, nobody else stores these names, and every eval that one of them triggers is marked pending by a callback |
| `EvalWorker.NumberDecreases` | eval.c:869-877 | clearing one bit and setting lower ones makes the pending bits, read in topological order, a smaller number |
| `EvalWorker.StepPotential` | eval.c:853-892 | every triggered evaluation lowers the pending number, and only outside dispatches and periodic evaluations raise it, by a bounded amount |
| `EvalWorker.CascadesEnd` | eval.c:955-959 | in every interleaving, from any state on, the number of triggered evaluations is bounded by that state and the outside events since |
| `EvalWorker.QuietCascadesEnd` | eval.c:539-571 | at whatever moment of a run outside events stop, fewer than 2^n triggered evaluations follow until the next one, in an accepted configuration of n evals |
| `EvalWorker.Schedule.Check` | eval.c:858-872 | a pending eval is due once; a periodic one keeps its raster, missed times are skipped and the next one lies after now |
| `EvalWorker.Schedule.Trigger` | eval.c:827-836 | the eval is marked and the worker signalled, nothing else changes |
| `EvalWorker.CheckIsScan` | eval.c:858-880 | what Schedule.Check does to the flags is the step Scan of the worker: it starts the eval exactly if it is due |
| `EvalWorker.FireIsTrigger` | eval.c:827-836 | what Schedule.Trigger does to the flags is the step Fire of a dispatch |
| `Dispatcher.Dispatcher.DispVal` | uvrgw_conf.c:883-913 | non-finite values change nothing; others are stored, valid ones re-arm the timeout, and exactly the registered outputs of other owners get them |
| `Dispatcher.Dispatcher.FireCbs` | uvrgw_conf.c:924-934 | exactly the registered outputs other than the source are called, with the dispatched data |
| `Dispatcher.Dispatcher.WatchdogCheck` | uvrgw_conf.c:1040-1062 | only an expired deadline resets, to an invalid init_value, disarms, and tells exactly the outputs of other owners than the producer |
| `Dispatcher.FireStepsAreFireCbs` | uvrgw_conf.c:924-934 | in every run, from the moment the data is stored, the next steps of the name are the callbacks, in order and with nothing in between, and they do to the outputs what fire_cbs does |
| `Dispatcher.Dispatcher.GetVal` | uvrgw_conf.c:943-952 | number and validity of the stored pair are read |
| `Dispatcher.Dispatcher.Startup` | uvrgw_conf.c:964-974 | a name that no data has armed is armed |
| `Dispatcher.OutputsAgreeWithStore` | uvrgw_conf.c:883-934 | whenever the dispatch lock is free, every registered output has received exactly the data that others stored, in that order, and last what a reader gets if others stored last; a slot that is not registered has received nothing |
| `Dispatcher.ReadsAreWhole` | uvrgw_conf.c:943-952 | a reader never gets a number with the validity of another one |
| `Dispatcher.DisarmedIsReset` | uvrgw_conf.c:1043-1050 | after startup a name is disarmed exactly while it is reset, and then invalid at its init_value |
| `Dispatcher.ValidIsReceived` | uvrgw_conf.c:897-908 | in every interleaving a name with a timeout is valid exactly if it has received data and the last event was no reset, else it holds its init_value |
| `Dispatcher.ResetsAreSeparated` | uvrgw_conf.c:1040-1062 | between two resets there is valid data, and none comes earlier than stale_timeout after the last data or the arming |
| `Dispatcher.CheckedIsNotOverdue` | uvrgw_conf.c:1017-1021 | right after a check at a time the name is reset, or that time is less than stale_timeout after its last data or its arming |
| `LockOrder.CheckNotChained` | counter.c:74-80 | the configuration is accepted exactly if no counter reads a counter |
| `LockOrder.GoesOnOrdered` | uvrgw_conf.c:924-934 | every call a thread makes takes locks of higher rank than those it holds: non-counter name, counter, counter name, leaf |
| `LockOrder.NoWaitCycle` | counter.c:280-310 | in every reachable state no threads wait for each other in a cycle, and none for itself |
| `LockOrder.NoDeadlock` | uvrgw_conf.c:883-934 | in every reachable state in which a thread is not idle, some such thread can take a step |
| `LockOrder.ChainedCountersDeadlock` | counter.c:74-80 | without the check two counters that read each other reach a deadlock |
| `Counter.Counter.SourceUpdate` | counter.c:280-310 | scaling, the disabled, invalid, power and device branches, and when the total is published |
| `Counter.Counter.DeviceUpdate` | counter.c:320-368 | a negative reading is refused and changes nothing; any other one leads to the state of which ReadingIsCounted speaks |
| `Counter.ReadingIsCounted` | counter.c:320-368 | the first reading becomes the total; a later one adds its rise, or after a reset itself, unless there is a limit, an earlier change is known and the rise is larger than max_power times the time since that change in hours; then it adds nothing; the counter goes on from the new reading in every case |
| `Counter.TotalFollowsDevice` | counter.c:339-361 | over every run without limit the total rises by what the device shows now, plus all readings it was reset from, minus the reading at the start |
| `Counter.LimitIsExactIff` | counter.c:351-359 | over every run a counter with a limit counts at most as much as one without, and exactly as much if and only if no change exceeds the limit |
| `Counter.Counter.Integrate` | counter.c:415-430 | the held power of the counted sign is added up to now |
| `Counter.Counter.Tick` | counter.c:453-464 | only initialised, enabled power counters are advanced and published |
| `Counter.Counter.constructor` | counter.c:497-538 | a missing file leaves the counter blank, an unreadable or invalid one disables it, a valid one is loaded |
| `Counter.Triangle` | counter.c:343-349 | the cost of a reading obeys the triangle inequality, with equality exactly if no reset is hidden |
| `Counter.RestartNeverOvercounts` | counter.c:320-368 | a counter that misses readings never counts more than one that saw them, and the same exactly if nothing is hidden |
| `Counter.NoResetHidesNothing` | counter.c:343-349 | without a device reset nothing is hidden |
| `Counter.RiseIsPlausible` | counter.c:351-365 | with max_power the total never falls and rises at most by max_power times the time of the changes, over every sequence of samples |
| `CounterPower.IntegrationIsSum` | counter.c:377-430 | for every order of values, losses and ticks the total is the sum over the intervals in which a power was held of its counted part times the duration, with gaps uncounted, plus what is counted twice |
| `CounterPower.IntegrationIsExactIff` | counter.c:386-389 | the total never falls short of that sum, and equals it exactly if no value or loss is older than a tick before it while a power that counts is held |
| `CounterPower.OvertakingTickCountsTwice` | counter.c:448-461 | a tick that samples its time after a source value but locks first makes the time between both count twice |
| `CounterPower.OrderedEventsAreExact` | counter.c:415-430 | with all times in order the total is the sum up to the last event, wherever ticks fall |
| `CounterPower.HeldPowerIsCounted` | counter.c:415-430 | after any history a power held up to the next event adds power times milliseconds / 3600000 if it has the counted sign, and nothing otherwise |
| `CounterPower.GapIsNotCounted` | counter.c:401-404 | after any history nothing is added between a loss of the source and the next event |
| `CounterPower.OppositeSigns` | counter.c:422-427 | what two counters of opposite sign on one source count, each with its own times and ticks and apart from what each counts twice, differs by the signed energy up to the powers times the skew of the times, exactly if they sample the same times |
| `CounterPower.RisesDifferBySignedEnergy` | counter.c:422-427 | the same for the rises of the totals themselves, where no source value steps back behind a tick while a power that counts is held |
| `CounterSave.UpdateMarksDirty` | counter.c:320-430 | every change of the saved state marks it dirty, and totals and readings stay non-negative, so a saved file can be loaded |
| `CounterSave.SavedUnlessDirty` | counter.c:543-571 | in every run of updates, saves, failures and crashes, an initialised counter that is not dirty and not being saved has its state in the file |
| `CounterSave.BrokenFileIsKept` | counter.c:497-531 | a file that cannot be loaded is never overwritten, and no disabled counter changes its file |
| `CounterSave.CrashesNeverOvercount` | counter.c:320-368 | in every run with crashes, lost readings and failed saves the total of a device counter, with or without max_power, never exceeds that of one without limit that never crashed, and neither can any state it may restart from |
| `CounterSave.CountsTheSame` | counter.c:497-538 | in every run with crashes, lost readings and failed saves, a counter that has seen the last reading has counted exactly the same if no device reset fell between the snapshot in the file of its last start and the first reading it saw, and that snapshot was itself exact |
| `CounterSave.StartsInSync` | counter.c:497-538 | a new run, and any state whose exact total has been saved, is such a snapshot |
| `CounterSave.NoResetKeepsAll` | counter.c:343-349 | without any device reset every snapshot stays one |
| `CounterSave.SeenReadingsAreExact` | counter.c:320-368 | a counter that misses no reading stays exact through resets |
| `CounterSave.SaveState` | counter.c:551-571 | the state is written if dirty, and stays dirty if the write fails |
| `CounterSave.SaveStateIsSteps` | counter.c:551-571 | save_states without updates in between is the steps of copying and of replacing the file or failing |
| `CounterSave.LoadAfterSave` | counter.c:497-571 | a saved state is loaded as it was |
| `Modbus.ResolveBase` | mb.c:253-262 | the owner of a register image is the first bitmask value of the register |
| `Modbus.Slave.WriteSchedule` | mb.c:1125-1136 | the newest value is queued |
| `Modbus.Slave.WriteTake` | mb.c:1166-1223 | the queued value is taken once, its bit set in the shared image, and the request formed from it |
| `Modbus.Slave.WriteRetry` | mb.c:1232-1238 | a failed value is queued again unless a newer one is |
| `Modbus.Slave.SlaveTaskWrite` | mb.c:849-875 | the next pending output from the current position is attempted, none is skipped, and a failure pauses the slave |
| `Modbus.Slave.WriteTurn` | mb.c:746-755 | one turn attempts the first pending output from the current position, or sets the walk back to the head |
| `ModbusWalk.WalkServes` | mb.c:746-755 | an output is attempted in a walk, or not pending at some time during it, if no output before it fails in the walk, however long pauses last |
| `ModbusWalk.AttemptedIffNoneBeforeFails` | mb.c:849-875 | where pauses last over a turn, an output pending all the time is attempted in a walk if and only if no output before it fails in that walk |
| `ModbusWalk.PendingIsServed` | mb.c:746-755 | from any state of the walk an output that stays pending is attempted before more turns without a pause have passed than the list has outputs plus one, if no output before it fails; those behind it may fail, and pauses may come between |
| `ModbusWalk.IdleMeansNonePending` | mb.c:746-755 | after a turn without an attempt the walk is at the head, and if the next one finds nothing either and writes do not pause, no output is pending |
| `ModbusWalk.FailingOutputStarvesOthers` | mb.c:849-875 | if an output at any position stays pending, fails whenever attempted, and its pauses last over a turn, no output behind it is ever attempted from any turn on at which the walk is not past it, as after every return to the head |
| `Modbus.AttemptsGoForward` | mb.c:1153-1252 | in every interleaving the values sent by the attempts of an output are those scheduled for it, in the order they were scheduled, never an older one after a newer |
| `Modbus.AttemptIsNewest` | mb.c:1166-1171 | every attempt sends the newest value scheduled by then |
| `Modbus.PlainWritesConverge` | mb.c:1125-1252 | an output with nothing queued or under way has its last scheduled value in the device |
| `Modbus.BitWritesConverge` | mb.c:1212-1220 | a register, identified by block and number, with no bit queued or under way holds the last scheduled values of all its bits, even after failed writes to sibling bits |

## Left out

- Characters: `next_token`, name lookup and decimal literals are not modelled, the parser reads a sequence of tokens.
- ParserCode.TeCompile: the positions which the lexer has reached behind each token are an input.
- Acceptance.AcceptsExactlyPrintings and ErrorPosition.ErrorIsAtFirstImpossibleToken: the end of the text is no token inside the sequence, as `next_token` delivers it only there (tinyexpr/tinyexpr.c:345-348).
- Closures (`TE_CLOSURE0` to `TE_CLOSURE7`): eval registers none.
- Allocation failures, logging and its once-flags, freeing of memory, and thread creation and joining.
- Rounding: `ncr`, counters and the `%.6f` text of state files are exact here, milliseconds become seconds through an abstract function, and the conversion of Modbus values (scale, offset, rounding, limits, word order) is one abstract function.
- `fac` and `npr`: the same kind of loop as `ncr`, with an easier invariant.
- EvalStep.Noninterference: speaks of one eval between given readings; the dispatch of its results is part of `EvalWorker` and `Dispatcher`.
- EvalWorker.CascadesEnd: cycles through other modules (eval, counter, eval) are outside events here, as the code does not detect them (README.md:587); an eval that publishes a name is assumed to store it at every evaluation, as its numbers are always finite.
- EvalCycles.CheckCycles: takes as given that a name has one producer, which uvrgw_conf_set_producer enforces (uvrgw_conf.c:725-729).
- Dispatcher.DisarmedIsReset: for names with a timeout only valid data is dispatched, as all inputs do (can.c:486, mb.c:911, mb.c:1048, mb.c:1059, mqtt.c:145, rest.c:327); only inputs have a timeout.
- LockOrder.NoDeadlock: covers the locks of dispatchers, counters and evals and treats the write lock of a Modbus master, the send buffer of a CAN frame and the inner lock of a name as leaves; locks inside libraries are not part of this model.
- Counter.RiseIsPlausible and Counter.LimitIsExactIff: the times of the readings are in order, as they are sampled under the dispatch lock of the source (uvrgw_conf.c:889-912, counter.c:282).
- CounterSave.CountsTheSame: for counters without max_power; with a limit a restart may accept a first change that the limit would have refused. The file is replaced atomically; whether the rename survives a power failure before the directory is synced is not modelled.
- Modbus.PlainWritesConverge: `modbus_set_slave` is assumed to succeed, as slave ids are validated (mb.c:151-160); if it failed, mb.c:1179-1182 would drop the queued value. Outputs with registers of their own are assumed not to overlap.
- Modbus.BitWritesConverge: no two outputs are the same bit of a register, and a register is mapped by one block; a register is modelled as the set of its bits that are 1.
- Modbus polling: reads, reconnecting and the change from one slave to the next are not modelled; a turn stands for a call of master_task that gets as far as writing.
- rest.c, mqtt.c, mqtt_logger.c, can.c, sunspec.c, main.c: network plumbing, parsing of messages and fixed layouts, which would only add easy members.
