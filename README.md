# Resource manager: FIFO and Banker's allocation, modelled in Dafny

The modelled program reads a script of `initiate`, `request`, `release` and `terminate`
instructions for a number of tasks and a number of resource types. It runs the script twice,
first under an optimistic FIFO manager and then under Banker's algorithm, and reports for every
task the time it took and the time it spent waiting.

Each policy works in cycles. In every cycle each task that is neither complete nor aborted gets
one turn:

- a delayed instruction counts down instead of running;
- a release is taken from the task at once, but its units return to the pool only at the end of
  the cycle;
- a terminate completes the task;
- a request joins a queue.

The queue is ordered by how long each task has been waiting, longest first. It is then admitted
against the pool, by the pool under FIFO and by the remaining claims under Banker's. Under FIFO,
when every live task is waiting, the manager declares a deadlock. It then aborts tasks in order
of appearance until some request fits. Under Banker's, a claim above the total aborts a task
before the run, and a request above the task's remaining claim aborts it during the run.

The project has two layers.

- **Values.** Modules `Instructions`, `Tasks`, `Ordering`, `Engine`, `Startup`, `Run` and
  `Report` describe the manager's state and each step of a cycle as datatypes and functions.
- **Objects.** Modules `Tasks` (class `Task`) and `Manager` (class `ResManager`) carry the same
  behaviour as objects whose methods update their fields. Each method is proved equal to the
  value layer (`Abs() == Spec(old(Abs()))`).

Modules `Invariant`, `Deadlock`, `Conservation` and `Admission` prove what the source promises
about the value layer:

- every lookup a cycle makes stays defined;
- the deadlock handler's victims and its stopping rule;
- the balance of units between the pool, the tasks and the releases in flight;
- admission never takes a non-negative pool below zero;
- under Banker's, holdings never exceed claims and a run never faults.

Behaviour kept exactly as the code has it, where a reader might expect otherwise:

- `terminate` charges no time.
- `abort` writes -1 into both counters and keeps the task's holdings in its record.
- A FIFO victim's holdings return to the pool at once. A Banker's over-claim abort queues its
  holdings for the end-of-cycle credit.
- The victim search skips at most one finished task. If the search runs past the last task, the
  C++ reads past the end of a vector; this is modelled as a fault that stops the run.
  `Deadlock.ResolveFault` shows this happens exactly when no live task is left.
- The Banker's pre-pass ignores delays.
- The Banker's pre-pass goes on applying a task's initiates after a claim above the total has
  aborted it. Each later initiate adds an entry and one unit to the task's clock, so the clock
  ends at -1 plus the number of initiates after the last such claim, while the waiting time stays
  -1. The report tests the clock for -1, so such a task can be reported as a finished task that
  took that many cycles, not as aborted. `Run.OverClaimThenFitReported` works through a script
  where the Banker's results for the task are 0 and -1.
- Under Banker's a complete or aborted task keeps its record, clock included, to the end of the
  run (`Run.BankersRunInert`). Under FIFO the victim search can still abort a complete task
  (`Deadlock.SkipsOnlyOne`).
- At least one cycle runs before the loop tests whether every task is finished.
- `reset` does not clear the deadlock flag. `Run.FifoEndsClear` shows the flag is already clear
  whenever the FIFO run ends normally.

## Model

| member | source | states |
|---|---|---|
| Instructions.MakeInstruction | resmanager.cpp:57-75 | kind, task, delay and type are copied from the line; the amount lands in the field the kind names (claim, request or release) and the other two are zero |
| Instructions.Locate | resmanager.cpp:267-277 | the found index holds an instruction of the task with exactly `k` earlier instructions of that task before it |
| Instructions.LocateUnique | resmanager.cpp:267-277 | only one index fits that description, so the instruction a task's cursor designates is determined |
| Instructions.TerminateBoundsInitiates | resmanager.cpp:101-108 | a task whose last instruction is a terminate has fewer initiates than instructions, so its cursor after the pre-pass is on a real instruction |
| Tasks.IndexOf | resmanager.cpp:112-118 | the entry found for a type holds that type and is its first occurrence |
| Tasks.Task.constructor | resmanager.cpp:92-99 | a new task has zero counters and cursor, no entries, and is neither complete nor aborted |
| Tasks.Task.Initiate | resmanager.cpp:101-108 | appends an entry (type, claim, nothing held) and advances cursor and clock by one |
| Tasks.Task.Granted | resmanager.cpp:110-124 | adds the grant to the type's entry, advances cursor and clock, and resets the current wait |
| Tasks.Task.Release | resmanager.cpp:126-139 | takes the amount from the type's entry and advances cursor and clock |
| Tasks.Task.Terminate | resmanager.cpp:141-145 | marks the task complete and advances the cursor without charging time |
| Tasks.Task.Wait | resmanager.cpp:147-152 | adds one to the clock, the total wait and the current wait |
| Tasks.Task.Abort | resmanager.cpp:154-159 | marks the task aborted and sets both counters to -1, leaving the holdings in place |
| Tasks.Task.Delay | resmanager.cpp:161-164 | adds one to the clock only |
| Tasks.GrantedHeld | resmanager.cpp:110-124 | after a grant of `k` units of type `rt` the task holds `k` more of `rt` and the same of every other type |
| Tasks.ReleasedHeld | resmanager.cpp:126-139 | after a release of `k` units of `rt` the task holds `k` fewer of `rt` and the same of every other type |
| Tasks.InitiateHeld | resmanager.cpp:101-108 | an initiate changes no holding |
| Ordering.PickIsFirstMax | resmanager.cpp:310-320 | one selection step returns an unused request of maximal wait, and the first of them |
| Ordering.Order | resmanager.cpp:307-323 | the selection visits every request index exactly once |
| Ordering.OrderSortedStable | resmanager.cpp:307-323 | the selected waits are non-increasing, and equal waits keep their queue order |
| Ordering.PermuteMultiset | resmanager.cpp:307-323 | the reordered queue holds the same requests as the queue |
| Ordering.SortRequests | resmanager.cpp:307-323 | the nested selection loop produces exactly the stable longest-wait-first order of the queue, a permutation of it |
| Engine.Script | resmanager.cpp:200-204 | one instruction per input line, built by the Instruction constructor |
| Engine.Initial | resmanager.cpp:182-207 | a fresh task per task number, the pool equal to the totals, the script with its delays, no deadlock, cycle 1 |
| Engine.Current | resmanager.cpp:267-277 | the instruction at a task's cursor belongs to the task and has exactly cursor-many earlier instructions of it |
| Engine.DispatchTask | resmanager.cpp:261-305 | a task's turn (FIFO here, Banker's at lines 457-523) changes only that task's record and the delay countdowns |
| Engine.DispatchUpTo | resmanager.cpp:261-305 | after the first `i` turns the tasks from `i` on are untouched and nothing but tasks and countdowns changed |
| Engine.Keys | resmanager.cpp:313-315 | the sort key of each queued request is its task's current wait |
| Engine.SortedRequests | resmanager.cpp:307-323 | the ordered queue has the queue's length and only queued requests |
| Engine.FifoCheck | resmanager.cpp:416-428 | a FIFO request is safe exactly when the pool of its type covers it |
| Engine.BankersCheck | resmanager.cpp:577-591 | a Banker's request is safe exactly when, for every entry of the task, the pool of that type covers the claim minus the holding |
| Engine.NeedsCoveredFrom | resmanager.cpp:583-589 | the scan over the task's entries from `e` on succeeds exactly when each of them is covered |
| Engine.Grant | resmanager.cpp:329-332 | a grant changes only the tasks and the pool, and every task keeps its entries |
| Engine.Deny | resmanager.cpp:333-335 | a refusal changes only the tasks, and every task keeps its entries |
| Engine.Admit | resmanager.cpp:327-336 | admitting one request changes only the tasks and the pool |
| Engine.AdmitAll | resmanager.cpp:327-336 | admitting the ordered queue changes only the tasks and the pool |
| Engine.Credit | resmanager.cpp:338-341 | each type's pool gains exactly the sum of the queued amounts of that type |
| Engine.AbortTask | resmanager.cpp:406-410 | the victim becomes aborted, every other task is unchanged, and the pool gains everything the victim held |
| Engine.Resolve | resmanager.cpp:357-414 | deadlock handling changes neither the totals, the script, the countdowns, the cycle nor the number of tasks |
| Engine.ResolveStep | resmanager.cpp:399-412 | a round that finds no request fitting aborts the candidate, or the next one if the candidate is finished, then goes on from the one after |
| Engine.ResolveStuck | resmanager.cpp:357-414 | after deadlock handling every live task still waits at a request, so the rest of the cycle can run |
| Engine.CycleRest | resmanager.cpp:253-353 | the pass, admission and credit keep totals, script and the deadlock flag and advance the cycle by one |
| Engine.Cycle | resmanager.cpp:236-354 | a whole cycle keeps the totals, the script and the number of tasks |
| Startup.ClaimTooLargeSnoc | resmanager.cpp:435-443 | a claim above the total is seen exactly when some initiate so far claims more than its type's total |
| Startup.StartTasks | resmanager.cpp:430-445 | after the pre-pass (FIFO's at lines 227-232 never aborts) each task holds nothing and its cursor has moved once per entry; one not aborted holds one entry per initiate with its type and claim and its clock moved once per initiate; an aborted one's wait is -1 and its clock -1 plus its initiates after its last claim above the total |
| Startup.Start | resmanager.cpp:227-232 | the pre-pass (`Engine.PrePassUpTo` over `Engine.PrePassStep`, Banker's form at lines 432-445) leaves the pool, totals, script and countdowns as the constructor built them |
| Startup.StartAborts | resmanager.cpp:431-445 | after the pre-pass a task is aborted exactly when the policy is Banker's and one of its initiates claims more than the total |
| Startup.StartClaimsFit | resmanager.cpp:435-436 | every claim a Banker's task that is not aborted carries into the run is within its type's total |
| Startup.StartValid | resmanager.cpp:227-232 | under the script condition the state after the pre-pass satisfies the cycle invariant |
| Invariant.ValidShaped | resmanager.cpp:267-280 | under the invariant every cursor lookup finds an instruction and every waiting task waits at a request |
| Invariant.AscendingDistinct | resmanager.cpp:261-283 | requests are queued in task order, so no request is queued twice |
| Invariant.DispatchUpToValid | resmanager.cpp:261-305 | the pass keeps the invariant, and every queued request belongs to a live task whose cursor is on it (under Banker's, within its claim) |
| Invariant.GrantValid | resmanager.cpp:329-332 | granting a queued request keeps the invariant |
| Invariant.DenyValid | resmanager.cpp:333-335 | refusing a queued request keeps the invariant |
| Invariant.AdmitValid | resmanager.cpp:327-336 | admitting one request keeps the invariant and the other queued requests |
| Invariant.AdmitAllValid | resmanager.cpp:327-336 | admitting the whole queue keeps the invariant |
| Invariant.CycleRestValid | resmanager.cpp:253-353 | the pass, admission and credit keep the invariant |
| Invariant.DispatchUpToInert | resmanager.cpp:253-305 | the task loop leaves every complete or aborted task exactly as it was |
| Invariant.AdmitAllOthers | resmanager.cpp:325-336 | admission changes no task but those whose requests it admits |
| Invariant.CycleRestInert | resmanager.cpp:253-353 | the pass, admission and credit leave a complete or aborted task exactly as it was: no cursor move and no time |
| Invariant.AbortValid | resmanager.cpp:406-410 | aborting a task keeps the invariant |
| Invariant.ResolveValid | resmanager.cpp:357-414 | deadlock handling keeps the invariant |
| Invariant.CycleValid | resmanager.cpp:236-354 | a whole cycle of either policy keeps the invariant and the script condition |
| Deadlock.ResolveVictims | resmanager.cpp:399-412 | the victims come in strictly ascending task order, all from the first candidate on |
| Deadlock.ResolveFrame | resmanager.cpp:357-414 | deadlock handling changes no task other than its victims |
| Deadlock.ResolveAborts | resmanager.cpp:406-407 | every victim ends aborted |
| Deadlock.ResolveStops | resmanager.cpp:385-397 | a handling that does not fault ends with some live task's request fitting the pool and the flag cleared |
| Deadlock.FaultKeepsFlag | resmanager.cpp:363-397 | a handling that faults never cleared the flag |
| Deadlock.ResolveFault | resmanager.cpp:399-412 | deadlock handling runs past the last task exactly when it leaves no live task |
| Deadlock.SkipsOnlyOne | resmanager.cpp:399-402 | when two finished tasks sit at the candidate, the second is aborted anyway, because the skip is taken only once |
| Deadlock.CycleFlags | resmanager.cpp:237-251 | victims and a faulted stop only arise under FIFO, when every live task was waiting |
| Conservation.DispatchTaskBalanced | resmanager.cpp:261-305 | a turn keeps pool plus holdings plus releases in flight equal to the total, for every type |
| Conservation.DispatchUpToBalanced | resmanager.cpp:261-305 | the whole pass keeps that balance |
| Conservation.GrantBalanced | resmanager.cpp:329-332 | a grant moves units from the pool to the task and keeps the balance |
| Conservation.DenyBalanced | resmanager.cpp:333-335 | a refusal keeps the balance |
| Conservation.AdmitAllBalanced | resmanager.cpp:327-336 | admitting the queue keeps the balance |
| Conservation.CreditConserves | resmanager.cpp:338-341 | crediting the releases in flight restores pool plus holdings equal to the total |
| Conservation.CycleRestConserves | resmanager.cpp:253-353 | the pass, admission and credit keep pool plus holdings of tasks that are not aborted equal to the total |
| Conservation.AbortConserves | resmanager.cpp:406-410 | aborting a task that was not aborted keeps pool plus holdings equal to the total |
| Conservation.ResolveConserves | resmanager.cpp:357-414 | deadlock handling keeps the balance when none of its victims had been aborted before |
| Conservation.CycleConserves | resmanager.cpp:236-354 | a whole cycle keeps the balance, under FIFO provided no victim of its deadlock handling had been aborted before |
| Conservation.StartConserved | resmanager.cpp:227-232 | after the pre-pass nothing is held and the pool equals the totals |
| Admission.SortedOrder | resmanager.cpp:307-323 | the ordered queue puts longer waits first and breaks ties by task number |
| Admission.SortedPermutes | resmanager.cpp:307-323 | the ordered queue is a permutation of the queue |
| Admission.GrantKeepsPool | resmanager.cpp:548-552 | a grant that passed the policy's test leaves the pool of its type non-negative (FIFO at lines 329-332) |
| Admission.AdmitAllKeepsPool | resmanager.cpp:327-336 | admitting the whole queue never takes a pool below zero |
| Admission.AdmitAllNoGain | resmanager.cpp:327-336 | with non-negative amounts, admission only ever takes units out of the pool |
| Admission.DeferredReleases | resmanager.cpp:338-341 | the pass leaves the pool alone, this cycle's requests see only the old pool, and the released units arrive after admission |
| Admission.OverClaimAborts | resmanager.cpp:486-502 | a Banker's request above the remaining claim aborts the task, queues none of its requests and puts everything it holds in flight |
| Admission.DispatchTaskHeld | resmanager.cpp:476-502 | under Banker's, a turn keeps every holding within its claim |
| Admission.DispatchUpToHeld | resmanager.cpp:457-523 | the Banker's pass keeps every holding within its claim |
| Admission.GrantHeld | resmanager.cpp:548-552 | a Banker's grant keeps every holding within its claim |
| Admission.AdmitAllHeld | resmanager.cpp:545-556 | Banker's admission keeps every holding within its claim |
| Admission.CycleHeld | resmanager.cpp:449-574 | a Banker's cycle keeps every holding within its claim |
| Admission.ClaimsNonNegative | resmanager.cpp:433-436 | with non-negative amounts every recorded claim is non-negative |
| Admission.StartHeld | resmanager.cpp:431-445 | after the pre-pass every holding is within its claim |
| Run.Iterate | resmanager.cpp:234-354 | a run that ends normally ends with every task complete or aborted |
| Run.FuelIrrelevant | resmanager.cpp:234-236 | a run that ended within a bound on cycles ends the same way under any larger bound |
| Run.IterateAdvances | resmanager.cpp:234-354 | a run keeps any property each cycle that does not stop keeps |
| Run.IterateKeeps | resmanager.cpp:234-354 | a run keeps any property each cycle keeps, and never faults if no cycle does |
| Run.RunValid | resmanager.cpp:447-574 | a run of either policy keeps the invariant, and a Banker's run never faults |
| Run.StepValid | resmanager.cpp:236-354 | one cycle keeps the invariant, and a Banker's cycle always advances |
| Run.CycleClearsFlag | resmanager.cpp:385-397 | a FIFO cycle that goes on leaves the deadlock flag clear |
| Run.ExecuteValid | resmanager.cpp:226-355 | a run from the constructor's state keeps the invariant, and under Banker's never faults |
| Run.FifoEndsClear | resmanager.cpp:209-218 | a FIFO run that did not fault leaves the flag clear, so the flag `reset` keeps does not affect the Banker's run |
| Run.BankersStep | resmanager.cpp:449-574 | a Banker's cycle keeps the invariant, the balance and holdings within claims, and always advances |
| Run.BankersRun | resmanager.cpp:430-575 | a Banker's run never faults, keeps pool plus holdings equal to the totals, and keeps holdings within claims |
| Run.BankersRunInert | resmanager.cpp:447-575 | a Banker's run leaves a task that is complete or aborted exactly as it was, and keeps the number of tasks |
| Run.OverClaimStart | resmanager.cpp:432-436 | a claim above the total followed by one that fits leaves the task aborted with clock 0 and waiting time -1 |
| Run.OverClaimThenFitReported | resmanager.cpp:593-603 | for that script the Banker's results of the whole run are 0 and -1, which the report's test for -1 at line 678 does not read as an abort |
| Report.GatherResults | resmanager.cpp:593-603 | two results per task in task order: its time taken, then its waiting time |
| Report.DigitsBounds | resmanager.cpp:11-23 | a positive number has `d` digits exactly when it lies between 10^(d-1) and 10^d |
| Report.NumDigs | resmanager.cpp:11-23 | the digit count is 1 for zero or less, and otherwise the number of decimal digits |
| Manager.MakeTasks | resmanager.cpp:188-191 | builds the requested number of distinct, fresh, new tasks |
| Manager.MakeScript | resmanager.cpp:200-204 | builds the script and its delay countdowns from the lines |
| Manager.FindEntry | resmanager.cpp:479-485 | the scan over a task's types finds the first entry of the type |
| Manager.QueueHoldings | resmanager.cpp:494-496 | appends all of an aborted task's types and holdings to the release lists |
| Manager.ResManager.constructor | resmanager.cpp:182-207 | the new manager's state is the initial state of its input, over fresh task objects |
| Manager.ResManager.LocateCurrent | resmanager.cpp:267-277 | the instruction scan returns the instruction at the task's cursor |
| Manager.ResManager.DispatchOne | resmanager.cpp:261-305 | one turn of the task loop updates the manager exactly as the task's turn describes |
| Manager.ResManager.DispatchNext | resmanager.cpp:261-305 | one turn of the task loop moves on to the next task, with the manager as the pass over the tasks so far describes |
| Manager.ResManager.RunCurrent | resmanager.cpp:279-297 | running a task's instruction whose delay is over updates the manager as the turn describes |
| Manager.ResManager.CountDown | resmanager.cpp:298-302 | a task whose instruction is still delayed counts the delay down, as the turn describes |
| Manager.ResManager.DispatchPass | resmanager.cpp:253-305 | the task loop leaves the manager and the release and request lists as the pass describes |
| Manager.ResManager.PendingWaits | resmanager.cpp:313-315 | reads each queued request's task's current wait |
| Manager.ResManager.OrderRequests | resmanager.cpp:307-323 | the ordering loop returns the ordered queue, a permutation of the queue |
| Manager.ResManager.FifoSafe | resmanager.cpp:416-428 | returns the FIFO safety test |
| Manager.ResManager.BankersSafe | resmanager.cpp:577-591 | the loop over the task's entries returns the Banker's safety test |
| Manager.ResManager.AdmitPass | resmanager.cpp:325-336 | admitting the ordered queue updates the manager as admission describes |
| Manager.ResManager.AdmitOne | resmanager.cpp:327-336 | one request's test and its grant or wait update the manager as admission of that request describes |
| Manager.ResManager.AdmitNext | resmanager.cpp:327-336 | one step of the admission loop moves on to the next request, leaving the rest of admission to give the same result |
| Manager.ResManager.GrantOne | resmanager.cpp:329-332 | a grant updates the task and the pool as a grant describes |
| Manager.ResManager.DenyOne | resmanager.cpp:333-335 | a refusal makes the task wait |
| Manager.ResManager.CreditPass | resmanager.cpp:338-341 | the end-of-cycle loop credits the released units and changes nothing else |
| Manager.ResManager.NextCycle | resmanager.cpp:353 | advances the cycle counter only |
| Manager.ResManager.RestOfCycle | resmanager.cpp:253-353 | the pass, ordering, admission, credit and cycle step update the manager as the rest of a cycle describes |
| Manager.ResManager.InitiateAll | resmanager.cpp:227-232 | the pre-pass loop (and its Banker's form at lines 431-445) leaves the manager in the run's start state |
| Manager.ResManager.InitiateStep | resmanager.cpp:228-231 | one instruction of the pre-pass updates the manager as its step describes |
| Manager.ResManager.InitiateNext | resmanager.cpp:227-231 | one step of the pre-pass loop moves on to the next instruction, with the manager as the pre-pass so far describes |
| Manager.ResManager.AllWaitingNow | resmanager.cpp:238-246 | the detection loop returns `Engine.AllWaiting`: whether every live task is waiting |
| Manager.ResManager.AnyRequestFits | resmanager.cpp:364-392 | the re-check loop returns `Engine.Recheck`: whether some live task's request fits the pool |
| Manager.ResManager.AbortVictim | resmanager.cpp:406-410 | aborting updates the manager as the abort of that victim describes |
| Manager.ResManager.HandleDeadlock | resmanager.cpp:357-414 | with the flag set, the handler ends in the resolved state with its victims and fault; otherwise it changes nothing |
| Manager.ResManager.ResolveLoop | resmanager.cpp:362-413 | the handler's loop ends in the resolved state with its victims and fault |
| Manager.ResManager.ResolveRound | resmanager.cpp:364-412 | one round either ends the handler where resolution ends or aborts a victim, with the rest of the resolution unchanged |
| Manager.ResManager.ClearDeadlock | resmanager.cpp:385-389 | clears the deadlock flag only |
| Manager.ResManager.AbortNext | resmanager.cpp:399-412 | picks the candidate, or the next one if it is finished, and either faults or aborts it as resolution does |
| Manager.ResManager.AllFinished | resmanager.cpp:343-352 | the end-of-cycle loop returns `Engine.Finished`: whether every task is complete or aborted |
| Manager.ResManager.SetDeadlock | resmanager.cpp:238-246 | sets the deadlock flag only |
| Manager.ResManager.CycleOnce | resmanager.cpp:236-354 | one cycle of the loop updates the manager as a cycle describes, with its victims and whether it stopped |
| Manager.ResManager.ExecutePolicy | resmanager.cpp:226-355 | the pre-pass and the cycle loop (Banker's at lines 430-575) end in the state and status of the run from the start state |
| Manager.ResManager.RunTurn | resmanager.cpp:235-354 | one turn of the cycle loop either ends in the state and status of the run or leaves fewer cycles with the same run still ahead |
| Manager.ResManager.Gather | resmanager.cpp:593-603 | returns the results of the manager's tasks |
| Manager.ResManager.ExecuteBoth | resmanager.cpp:209-223 | the FIFO results are those of the FIFO run from the input, and when that run did not fault the Banker's results are those of the Banker's run from the input |
| Manager.ResManager.FifoPhase | resmanager.cpp:210-211 | the FIFO results are those of the FIFO run from the input, and the flag is clear unless that run faulted |
| Manager.ResManager.BankersPhase | resmanager.cpp:213-218 | after the reset, the Banker's results are those of the Banker's run from the input with the flag left by FIFO |
| Manager.ResManager.Reset | resmanager.cpp:762-791 | rebuilds the initial state of the stored input over fresh tasks, keeping the deadlock flag |

## Left out

- Reading the input file, splitting it into tokens and `stoi` (lines 26-45 and 182-204): the
  model takes the input as already-parsed integers. Malformed numbers and a short final line are
  not modelled.
- The printing in `execute`, the deadlock and abort messages, `print` with its floating-point
  percentages, and `main`: output only. `num_digs` is modelled because the table layout relies on
  it.
- Integer width: counters and amounts are unbounded integers, so 32-bit overflow of the C++
  `int` is not modelled.
- Run.Iterate: the run loop has no bound in the source, and a Banker's run can go on forever. The
  model takes a bound on the number of cycles as a parameter and reports `OutOfCycles` when it is
  reached.
- Undefined behaviour is not modelled as C++ would execute it. A deadlock handler that runs past
  the last task is a fault that stops the run. `Run.CycleStep` treats a state outside the
  invariant as a stop; `Run.RunValid` shows no such state arises under the script condition.
- Instruction delays are kept as a separate countdown sequence beside the otherwise unchanging
  instructions. The source decrements the field in the instruction itself.
- The three release and request vectors of a cycle are one `Pending` record. The manager
  computes each request's sort key once before ordering, where the source rereads it in every
  comparison; the keys cannot change during ordering.
- The re-check in `handle_deadlock` is a function returning whether some request fits; the
  manager clears the flag after it, as the source's `break` does.
- Manager.ResManager.ExecutePolicy: requires the script condition (`Invariant.ScriptOk`: every
  task ends with a terminate, and requests and releases name initiated types). When the condition
  fails, some runs index past the instruction or entry vectors, which is undefined behaviour. The
  condition is sufficient, not necessary.
- Manager.ResManager.ExecuteBoth: requires the script condition, for the same reason. It ties the
  Banker's results to the Banker's run from the input only when the FIFO run did not fault.
  Otherwise the deadlock flag left by FIFO is carried over, as `reset` does.
- Conservation.CycleConserves: proved only when no victim of the cycle's deadlock handling had
  been aborted before. The skip in `handle_deadlock` can abort an aborted task a second time,
  and that credits its stale holdings again. For the same reason, balance is not proved over a
  whole FIFO run. It is proved over a whole Banker's run (`Run.BankersRun`).
- Admission.AdmitAllNoGain, Admission.DeferredReleases, Run.BankersRun: these assume every
  claim, request and release is non-negative (`Admission.AmountsOk`). Negative amounts are not
  rejected by the source.
- Admission.HeldOk: bounds the holdings only of tasks that are not aborted. An aborted task
  keeps its last holdings in its record, and they no longer count.
- Admission.AdmitAllKeepsPool: the pool is shown to stay non-negative only across one admission
  pass that starts from a non-negative pool, not over a whole run. A release larger than the
  task's holding is not checked (lines 126-139), so the holding can go negative. Aborting that
  task later credits the negative holding to the pool (lines 406-410, and under Banker's the
  over-claim queue at lines 494-496), and the pool then drops below zero.
