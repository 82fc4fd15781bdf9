/**
 * A whole run of one policy: cycles until every task is complete or aborted. The manager's loop
 * has no bound of its own; here the number of cycles is bounded by `fuel`, and a run that uses it
 * up says so.
 */
module Run {
  import opened Tasks
  import opened Engine
  import opened Invariant
  import opened Startup
  import opened Conservation
  import opened Admission
  import opened Deadlock
  import opened Instructions
  import opened Report

  datatype Status = Done | Faulted | OutOfCycles

  datatype RunResult = RunResult(run: State, status: Status)

  /**
   * The loop over cycles, for any cycle step `next`: the test for the end comes after each cycle,
   * so at least one cycle runs, and a cycle that stops ends the run as a fault.
   */
  function Iterate(next: State -> Outcome, s: State, fuel: nat): (r: RunResult)
    ensures r.status == Done ==> Finished(r.run.tasks)
    decreases fuel, 1
  {
    if fuel == 0 then RunResult(s, OutOfCycles) else Turn(next, s, fuel)
  }

  /** One turn of the loop: a cycle, then the test for the end. */
  function Turn(next: State -> Outcome, s: State, fuel: nat): (r: RunResult)
    requires fuel > 0
    ensures r.status == Done ==> Finished(r.run.tasks)
    decreases fuel, 0
  {
    match next(s)
    case Stopped(s', _) => RunResult(s', Faulted)
    case Advanced(s', _) =>
      if Finished(s'.tasks) then RunResult(s', Done) else Iterate(next, s', fuel - 1)
  }

  /** Once the loop ends within some number of cycles, more fuel changes nothing. */
  lemma {:induction false} FuelIrrelevant(next: State -> Outcome, s: State, fuel: nat, more: nat)
    requires fuel <= more && Iterate(next, s, fuel).status != OutOfCycles
    ensures Iterate(next, s, more) == Iterate(next, s, fuel)
    decreases fuel
  {
    var o := next(s);
    if o.Advanced? && !Finished(o.run.tasks) {
      FuelIrrelevant(next, o.run, fuel - 1, more - 1);
    }
  }

  /** A turn of the loop whose cycle goes on and leaves some task unfinished hands over to the next turn. */
  lemma IterateGoesOn(next: State -> Outcome, s: State, fuel: nat, fuel': nat, s': State, victims: seq<nat>)
    requires fuel == fuel' + 1 && next(s) == Advanced(s', victims) && !Finished(s'.tasks)
    ensures Iterate(next, s, fuel) == Iterate(next, s', fuel')
  {
    assert Iterate(next, s, fuel) == Turn(next, s, fuel);
  }

  /** A turn of the loop whose cycle stops ends the run on a fault. */
  lemma IterateStops(next: State -> Outcome, s: State, fuel: nat, s': State, victims: seq<nat>)
    requires fuel > 0 && next(s) == Stopped(s', victims)
    ensures Iterate(next, s, fuel) == RunResult(s', Faulted)
  {
    assert Iterate(next, s, fuel) == Turn(next, s, fuel);
  }

  /** A turn of the loop whose cycle leaves every task finished ends the run. */
  lemma IterateEnds(next: State -> Outcome, s: State, fuel: nat, s': State, victims: seq<nat>)
    requires fuel > 0 && next(s) == Advanced(s', victims) && Finished(s'.tasks)
    ensures Iterate(next, s, fuel) == RunResult(s', Done)
  {
    assert Iterate(next, s, fuel) == Turn(next, s, fuel);
  }

  /**
   * A property every step that goes on keeps holds at the end of any run that does not end on
   * a fault.
   */
  lemma {:induction false} IterateAdvances(next: State -> Outcome, inv: State -> bool, s: State, fuel: nat)
    requires inv(s)
    requires forall s' :: inv(s') && next(s').Advanced? ==> inv(next(s').run)
    ensures Iterate(next, s, fuel).status != Faulted ==> inv(Iterate(next, s, fuel).run)
    decreases fuel
  {
    var o := next(s);
    if fuel > 0 && o.Advanced? && !Finished(o.run.tasks) {
      IterateAdvances(next, inv, o.run, fuel - 1);
    }
  }

  /** One cycle of policy `p`. A state outside the invariant stops the run; `RunValid` shows none arises. */
  function CycleStep(p: Policy): State -> Outcome {
    s => if Scripted(s) && Valid(s) then ValidShaped(s); Cycle(p, s) else Stopped(s, [])
  }

  /**
   * The loop keeps any invariant `inv` its step keeps; if the step never stops from a state that
   * keeps the invariant, neither does the loop.
   */
  lemma {:induction false} IterateKeeps(next: State -> Outcome, inv: State -> bool, s: State, fuel: nat, stops: bool)
    requires inv(s)
    requires forall s' :: inv(s') ==> inv(next(s').run) && (!stops ==> next(s').Advanced?)
    ensures inv(Iterate(next, s, fuel).run) && (!stops ==> Iterate(next, s, fuel).status != Faulted)
    decreases fuel
  {
    var o := next(s);
    if fuel > 0 && o.Advanced? && !Finished(o.run.tasks) {
      IterateKeeps(next, inv, o.run, fuel - 1, stops);
    }
  }

  /**
   * A run from a state that keeps the invariant keeps it all along. It ends on a fault only
   * under FIFO, when deadlock resolution runs out of tasks.
   */
  lemma RunValid(p: Policy, s: State, fuel: nat)
    requires Scripted(s) && Valid(s)
    ensures var r := Iterate(CycleStep(p), s, fuel);
      Scripted(r.run) && Valid(r.run) && (p == Bankers ==> r.status != Faulted)
  {
    var inv := (s': State) => Scripted(s') && Valid(s');
    forall s' | inv(s')
      ensures inv(CycleStep(p)(s').run) && (p == Bankers ==> CycleStep(p)(s').Advanced?)
    {
      StepValid(p, s');
    }
    IterateKeeps(CycleStep(p), inv, s, fuel, p == Fifo);
  }

  /** From a state that keeps the invariant the step is the cycle, and it keeps the invariant. */
  lemma StepValid(p: Policy, s: State)
    requires Scripted(s) && Valid(s)
    ensures var o := CycleStep(p)(s);
      Scripted(o.run) && Valid(o.run) && (p == Bankers ==> o.Advanced?)
  {
    CycleValid(p, s);
  }

  /** A FIFO cycle that goes on leaves the deadlock flag clear. */
  lemma CycleClearsFlag(s: State)
    requires Shaped(s) && WaitersAtRequest(s)
    ensures Cycle(Fifo, s).Advanced? ==> !Cycle(Fifo, s).run.deadlock
  {
    var s1 := s.(deadlock := AllWaiting(s.tasks));
    if s1.deadlock {
      ResolveStops(s1, 0, Resolve(s1, 0));
    }
  }

  /** The FIFO step that goes on leaves the deadlock flag clear. */
  lemma StepClearsFlag(s: State)
    ensures CycleStep(Fifo)(s).Advanced? ==> !CycleStep(Fifo)(s).run.deadlock
  {
    if Scripted(s) && Valid(s) {
      ValidShaped(s);
      CycleClearsFlag(s);
    }
  }

  /** One policy's run on the input, from the state the constructor (or `reset`) builds. */
  function Execute(p: Policy, input: Input, fuel: nat): (r: RunResult)
    requires InitiatesOk(Script(input), input.numTasks, |input.totals|)
  {
    Iterate(CycleStep(p), Start(p, input), fuel)
  }

  /** Under the script condition a run keeps the invariant; a Banker's run never faults. */
  lemma ExecuteValid(p: Policy, input: Input, fuel: nat)
    requires ScriptOk(Script(input), input.numTasks, |input.totals|)
    ensures var r := Execute(p, input, fuel);
      Scripted(r.run) && Valid(r.run) && (p == Bankers ==> r.status != Faulted)
  {
    StartValid(p, input);
    RunValid(p, Start(p, input), fuel);
  }

  /**
   * A FIFO run that does not end on a fault leaves the deadlock flag clear, so `reset` then
   * gives the Banker's run the same state the constructor built.
   */
  lemma FifoEndsClear(input: Input, fuel: nat)
    requires InitiatesOk(Script(input), input.numTasks, |input.totals|)
    ensures Execute(Fifo, input, fuel).status != Faulted ==> !Execute(Fifo, input, fuel).run.deadlock
  {
    var inv := (s': State) => !s'.deadlock;
    forall s' | inv(s') && CycleStep(Fifo)(s').Advanced? ensures inv(CycleStep(Fifo)(s').run) {
      StepClearsFlag(s');
    }
    IterateAdvances(CycleStep(Fifo), inv, Start(Fifo, input), fuel);
  }

  /** What every Banker's cycle keeps: the invariant, the balance of units and holdings within claims. */
  predicate BankersInv(s: State) {
    Scripted(s) && Valid(s) && AmountsOk(s.instrs) && Conserved(s) && HeldOk(s.tasks)
  }

  lemma BankersStep(s: State)
    requires BankersInv(s)
    ensures BankersInv(CycleStep(Bankers)(s).run) && CycleStep(Bankers)(s).Advanced?
  {
    CycleValid(Bankers, s);
    CycleConserves(Bankers, s);
    CycleHeld(s);
  }

  /**
   * A Banker's run on a script with non-negative amounts never faults, and after every cycle the
   * pool and the holdings of the tasks not aborted make up each type's total, and no task that is
   * not aborted holds more of an entry than it claimed.
   */
  lemma BankersRun(input: Input, fuel: nat)
    requires ScriptOk(Script(input), input.numTasks, |input.totals|) && AmountsOk(Script(input))
    ensures var r := Execute(Bankers, input, fuel);
      r.status != Faulted && Conserved(r.run) && HeldOk(r.run.tasks)
  {
    var s := Start(Bankers, input);
    StartValid(Bankers, input);
    StartConserved(Bankers, input);
    StartHeld(Bankers, input);
    var inv := (s': State) => BankersInv(s');
    forall s' | inv(s') ensures inv(CycleStep(Bankers)(s').run) && CycleStep(Bankers)(s').Advanced? {
      BankersStep(s');
    }
    IterateKeeps(CycleStep(Bankers), inv, s, fuel, false);
  }

  /** Under Banker's a task that is complete or aborted keeps its record, clock included, to the end of the run. */
  lemma BankersRunInert(s: State, fuel: nat, i: nat)
    requires Scripted(s) && Valid(s) && i < |s.tasks| && !s.tasks[i].Active()
    ensures var r := Iterate(CycleStep(Bankers), s, fuel);
      |r.run.tasks| == |s.tasks| && r.run.tasks[i] == s.tasks[i]
  {
    var t := s.tasks[i];
    var n := |s.tasks|;
    var inv := (s': State) => Scripted(s') && Valid(s') && |s'.tasks| == n && i < n && s'.tasks[i] == t;
    forall s' | inv(s') ensures inv(CycleStep(Bankers)(s').run) && CycleStep(Bankers)(s').Advanced? {
      StepValid(Bankers, s');
      CycleRestInert(Bankers, s', i);
    }
    IterateKeeps(CycleStep(Bankers), inv, s, fuel, false);
  }

  /** One task over two types of one unit each: a claim of 5 units of type 1, a claim of 1 unit of type 2, then the terminate. */
  function OverClaimThenFit(): Input {
    Input(1, [1, 1], [Quintuple(Initiate, 1, 0, 1, 5), Quintuple(Initiate, 1, 0, 2, 1),
                      Quintuple(Terminate, 1, 0, 0, 0)])
  }

  /** The script of `OverClaimThenFit`: two initiates of task 1, then its terminate. */
  lemma OverClaimScript()
    ensures var instrs := Script(OverClaimThenFit());
      && |instrs| == 3 && instrs[0].task == 1 && instrs[1].task == 1 && instrs[2].task == 1
      && instrs[0].kind == Initiate && instrs[0].resType == 1 && instrs[0].initialClaim == 5
      && instrs[1].kind == Initiate && instrs[1].resType == 2 && instrs[1].initialClaim == 1
      && instrs[2].kind == Terminate
  {
    var lines := OverClaimThenFit().lines;
    var instrs := Script(OverClaimThenFit());
    assert instrs[0] == MakeInstruction(lines[0]) && instrs[1] == MakeInstruction(lines[1]);
    assert instrs[2] == MakeInstruction(lines[2]);
  }

  /** Two initiates of task 1, of types within 1..2, then its terminate meet the script condition. */
  lemma TwoInitiatesScriptOk(instrs: seq<Instruction>)
    requires |instrs| == 3 && instrs[0].task == 1 && instrs[1].task == 1 && instrs[2].task == 1
    requires instrs[0].kind == Initiate && 1 <= instrs[0].resType <= 2
    requires instrs[1].kind == Initiate && 1 <= instrs[1].resType <= 2
    requires instrs[2].kind == Terminate
    ensures ScriptOk(instrs, 1, 2)
  {
    forall q | 0 <= q < |instrs|
      ensures instrs[q].task == 1 && instrs[q].kind != Request && instrs[q].kind != Release
      ensures instrs[q].kind == Initiate ==> 1 <= instrs[q].resType <= 2
    {
      if q == 0 {
      } else if q == 1 {
      } else {
        assert q == 2;
      }
    }
    assert instrs[..0] == [] && instrs[..3] == instrs;
    CountSnoc(instrs, 0, 1);
    CountSnoc(instrs, 1, 1);
    CountSnoc(instrs, 2, 1);
    LocateUnique(instrs, 1, 2, 2);
  }

  /** The script of `OverClaimThenFit` meets the script condition. */
  lemma OverClaimScriptOk()
    ensures ScriptOk(Script(OverClaimThenFit()), 1, 2)
  {
    OverClaimScript();
    TwoInitiatesScriptOk(Script(OverClaimThenFit()));
  }

  /** The pre-pass aborts the task on its first claim and then initiates it on its second. */
  lemma OverClaimStart()
    ensures InitiatesOk(Script(OverClaimThenFit()), 1, 2)
    ensures var t := Start(Bankers, OverClaimThenFit()).tasks[0];
      t.aborted && t.timeTaken == 0 && t.waitingTime == -1
  {
    var input := OverClaimThenFit();
    var instrs := Script(input);
    OverClaimScript();
    OverClaimScriptOk();
    assert ClaimTooLarge(instrs, input.totals, 1, 3) by {
      assert instrs[0].initialClaim > input.totals[instrs[0].resType - 1];
    }
    assert InitiatesSinceOverClaim(instrs, input.totals, 1, 1) == 0;
    assert InitiatesSinceOverClaim(instrs, input.totals, 1, 3) == 1;
    StartTasks(Bankers, input, 0);
  }

  /**
   * The Banker's pre-pass aborts the task on its first claim and then initiates it on the second,
   * which fits: the task starts the run aborted, with clock 0 and waiting time -1, and the Banker's
   * results report those two numbers however long the run goes on.
   */
  lemma OverClaimThenFitReported(fuel: nat)
    ensures InitiatesOk(Script(OverClaimThenFit()), 1, 2)
    ensures GatherResults(Execute(Bankers, OverClaimThenFit(), fuel).run.tasks) == [0, -1]
  {
    var input := OverClaimThenFit();
    OverClaimStart();
    OverClaimScriptOk();
    StartValid(Bankers, input);
    var s := Start(Bankers, input);
    BankersRunInert(s, fuel, 0);
    var r := Execute(Bankers, input, fuel).run.tasks;
    assert |r| == 1 && r[0] == s.tasks[0];
  }
}
