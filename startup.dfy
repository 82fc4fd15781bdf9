/**
 * Round zero: what the pre-pass of initiates leaves in each task, and that the cycle invariant
 * holds from the first cycle on.
 */
module Startup {
  import opened Instructions
  import opened Tasks
  import opened Engine
  import opened Invariant

  /** Among the first `j` instructions, task `t` has an initiate whose claim exceeds the total of its type. */
  predicate ClaimTooLarge(instrs: seq<Instruction>, total: seq<int>, t: int, j: nat) {
    exists q :: 0 <= q < j && q < |instrs| && instrs[q].kind == Initiate && instrs[q].task == t &&
      1 <= instrs[q].resType <= |total| && instrs[q].initialClaim > total[instrs[q].resType - 1]
  }

  lemma ClaimTooLargeSnoc(instrs: seq<Instruction>, total: seq<int>, t: int, j: nat)
    requires j < |instrs|
    ensures ClaimTooLarge(instrs, total, t, j + 1) <==>
      ClaimTooLarge(instrs, total, t, j) ||
      (instrs[j].kind == Initiate && instrs[j].task == t && 1 <= instrs[j].resType <= |total| &&
       instrs[j].initialClaim > total[instrs[j].resType - 1])
  {
    if ClaimTooLarge(instrs, total, t, j + 1) {
      var q :| 0 <= q < j + 1 && q < |instrs| && instrs[q].kind == Initiate && instrs[q].task == t &&
        1 <= instrs[q].resType <= |total| && instrs[q].initialClaim > total[instrs[q].resType - 1];
      if q < j {
        assert ClaimTooLarge(instrs, total, t, j);
      }
    }
  }

  /**
   * The initiates of task `t` among the first `j` instructions that come after its last claim
   * above the total of its type (all of its initiates when it has no such claim).
   */
  function InitiatesSinceOverClaim(instrs: seq<Instruction>, total: seq<int>, t: int, j: nat): nat
    requires j <= |instrs|
  {
    if j == 0 then 0
    else
      var ins := instrs[j - 1];
      if ins.kind != Initiate || ins.task != t then InitiatesSinceOverClaim(instrs, total, t, j - 1)
      else if 1 <= ins.resType <= |total| && ins.initialClaim > total[ins.resType - 1] then 0
      else InitiatesSinceOverClaim(instrs, total, t, j - 1) + 1
  }

  /**
   * Task `i` after the pre-pass over the first `j` instructions. It is aborted exactly when the
   * policy is Banker's and one of its claims so far exceeds the total of its type. Holding nothing,
   * and having waited for nothing, it is not complete, and its cursor has moved once per entry.
   * While not aborted it holds one entry per initiate so far, with that initiate's type and claim,
   * and its clock has moved once per initiate. Once aborted its waiting time is -1, but its clock
   * is -1 only until the next initiate of the task: every initiate after the last claim above the
   * total still adds one to it.
   */
  predicate AfterPrePass(p: Policy, instrs: seq<Instruction>, total: seq<int>, t: TaskRec, i: nat, j: nat)
    requires j <= |instrs|
  {
    && TypesOk(t, |total|) && !t.complete && t.currWait == 0
    && (forall e :: 0 <= e < |t.resourcesHeld| ==> t.resourcesHeld[e] == 0)
    && (t.aborted <==> p == Bankers && ClaimTooLarge(instrs, total, i + 1, j))
    && t.currInstr == |t.resourceTypes|
    && (t.aborted ==>
          t.waitingTime == -1 && t.timeTaken == InitiatesSinceOverClaim(instrs, total, i + 1, j) - 1)
    && (!t.aborted ==>
          && t.resourceTypes == InitiatedTypes(instrs[..j], i + 1)
          && t.initialClaims == InitiatedClaims(instrs[..j], i + 1)
          && t.timeTaken == t.currInstr && t.waitingTime == 0)
  }

  /** The initiate at position `j` applied to task `i`. */
  lemma PrePassStepTask(p: Policy, s: State, j: nat, i: nat)
    requires j < |s.instrs| && i < |s.tasks| && InitiatesOk(s.instrs, |s.tasks|, |s.total|)
    requires AfterPrePass(p, s.instrs, s.total, s.tasks[i], i, j)
    ensures AfterPrePass(p, s.instrs, s.total, PrePassStep(p, s, s.instrs[j]).tasks[i], i, j + 1)
  {
    var ins := s.instrs[j];
    var t := s.tasks[i];
    InitiatedSnoc(s.instrs, j, i + 1);
    ClaimTooLargeSnoc(s.instrs, s.total, i + 1, j);
    var t' := PrePassStep(p, s, ins).tasks[i];
    if ins.kind == Initiate && ins.task == i + 1 {
      if p == Fifo || ins.initialClaim <= s.total[ins.resType - 1] {
        assert t' == AfterInitiate(t, ins.resType, ins.initialClaim);
        assert forall e :: 0 <= e < |t.resourceTypes| ==> t'.resourceTypes[e] == t.resourceTypes[e];
        assert forall e :: 0 <= e < |t.resourcesHeld| ==> t'.resourcesHeld[e] == t.resourcesHeld[e];
      } else {
        assert t' == AfterAbort(t);
      }
    } else {
      assert t' == t;
    }
  }

  /** The pre-pass over the first `j` instructions, from fresh tasks. */
  lemma {:induction false} PrePassUpToTask(p: Policy, s: State, j: nat, i: nat)
    requires j <= |s.instrs| && i < |s.tasks| && InitiatesOk(s.instrs, |s.tasks|, |s.total|)
    requires s.tasks[i] == FreshTask()
    ensures AfterPrePass(p, s.instrs, s.total, PrePassUpTo(p, s, j).tasks[i], i, j)
  {
    if j == 0 {
      assert s.instrs[..0] == [];
    } else {
      PrePassUpToTask(p, s, j - 1, i);
      PrePassStepTask(p, PrePassUpTo(p, s, j - 1), j - 1, i);
    }
  }

  /** The state both policies start their first cycle from. */
  function Start(p: Policy, input: Input): (s: State)
    requires InitiatesOk(Script(input), input.numTasks, |input.totals|)
    ensures s.total == input.totals && s.current == input.totals && s.instrs == Script(input)
    ensures s.delays == Delays(s.instrs) && |s.tasks| == input.numTasks && !s.deadlock && s.cycle == 1
  {
    PrePass(p, Initial(input))
  }

  /** After the pre-pass every task is as `AfterPrePass` describes. */
  lemma StartTasks(p: Policy, input: Input, i: nat)
    requires InitiatesOk(Script(input), input.numTasks, |input.totals|) && i < input.numTasks
    ensures var s := Start(p, input);
      var instrs := Script(input);
      AfterPrePass(p, instrs, input.totals, s.tasks[i], i, |instrs|)
  {
    PrePassUpToTask(p, Initial(input), |Script(input)|, i);
  }

  /** Under Banker's, a task is aborted before the first cycle exactly when one of its claims exceeds the total; under FIFO never. */
  lemma StartAborts(p: Policy, input: Input, i: nat)
    requires InitiatesOk(Script(input), input.numTasks, |input.totals|) && i < input.numTasks
    ensures Start(p, input).tasks[i].aborted <==>
              p == Bankers && ClaimTooLarge(Script(input), input.totals, i + 1, |input.lines|)
  {
    StartTasks(p, input, i);
  }

  /** With no claim too large so far, every claim so far is within the total of its type. */
  lemma {:induction false} ClaimsWithin(instrs: seq<Instruction>, n: nat, total: seq<int>, t: int, j: nat)
    requires j <= |instrs| && InitiatesOk(instrs, n, |total|) && !ClaimTooLarge(instrs, total, t, j)
    ensures var types := InitiatedTypes(instrs[..j], t);
      var claims := InitiatedClaims(instrs[..j], t);
      forall e :: 0 <= e < |types| ==> 1 <= types[e] <= |total| && claims[e] <= total[types[e] - 1]
  {
    if j == 0 {
      assert instrs[..0] == [];
    } else {
      InitiatedSnoc(instrs, j - 1, t);
      ClaimTooLargeSnoc(instrs, total, t, j - 1);
      ClaimsWithin(instrs, n, total, t, j - 1);
    }
  }

  /** Under Banker's every claim of a task that starts unaborted is within the total of its type. */
  lemma StartClaimsFit(input: Input, i: nat, e: nat)
    requires InitiatesOk(Script(input), input.numTasks, |input.totals|) && i < input.numTasks
    requires var t := Start(Bankers, input).tasks[i]; !t.aborted && e < |t.resourceTypes|
    ensures var t := Start(Bankers, input).tasks[i];
      && e < |t.initialClaims| && 1 <= t.resourceTypes[e] <= |input.totals|
      && t.initialClaims[e] <= input.totals[t.resourceTypes[e] - 1]
  {
    var instrs := Script(input);
    var t := Start(Bankers, input).tasks[i];
    StartTasks(Bankers, input, i);
    assert !ClaimTooLarge(instrs, input.totals, i + 1, |instrs|);
    ClaimsWithin(instrs, input.numTasks, input.totals, i + 1, |instrs|);
    assert t.resourceTypes == InitiatedTypes(instrs[..|instrs|], i + 1);
    assert t.initialClaims == InitiatedClaims(instrs[..|instrs|], i + 1);
  }

  /** The cycle invariant holds when the first cycle begins. */
  lemma StartValid(p: Policy, input: Input)
    requires ScriptOk(Script(input), input.numTasks, |input.totals|)
    ensures Valid(Start(p, input)) && Scripted(Start(p, input))
  {
    var s := Start(p, input);
    var instrs := Script(input);
    assert instrs[..|instrs|] == instrs;
    forall i | 0 <= i < |s.tasks| ensures TaskInv(instrs, |s.total|, s.tasks[i], i) {
      StartTasks(p, input, i);
      if s.tasks[i].Active() {
        TerminateBoundsInitiates(instrs, i + 1);
      }
    }
  }
}
