/**
 * The cycle semantics of the resource manager as functions on values: the state the manager keeps,
 * the round-zero pre-pass of initiates, and one cycle (deadlock handling for FIFO, the pass over
 * the tasks, request ordering, admission, end-of-cycle credit) for both policies.
 *
 * The preconditions here are only what each lookup needs; that they keep holding from cycle to
 * cycle is proved in module Invariant.
 */
module Engine {
  import opened Instructions
  import opened Tasks
  import opened Ordering

  datatype Policy = Fifo | Bankers

  /** The input as already-parsed integers: task count, resource totals, instruction lines. */
  datatype Input = Input(numTasks: nat, totals: seq<int>, lines: seq<Quintuple>)

  /**
   * The manager's state. `delays[q]` is the running countdown of instruction `q`; the rest of each
   * instruction never changes. Resource type `r` (1-based) is at position `r - 1` of `total` and
   * `current`; task number `i + 1` is at position `i` of `tasks`.
   */
  datatype State = State(tasks: seq<TaskRec>, total: seq<int>, current: seq<int>,
                         instrs: seq<Instruction>, delays: seq<int>, deadlock: bool, cycle: int)

  /** The instructions an input describes. */
  function Script(input: Input): (instrs: seq<Instruction>)
    ensures |instrs| == |input.lines|
    ensures forall k :: 0 <= k < |instrs| ==> instrs[k] == MakeInstruction(input.lines[k])
  {
    seq(|input.lines|, k requires 0 <= k < |input.lines| => MakeInstruction(input.lines[k]))
  }

  /** The initial countdowns: each instruction's own delay. */
  function Delays(instrs: seq<Instruction>): (d: seq<int>)
    ensures |d| == |instrs| && forall k :: 0 <= k < |d| ==> d[k] == instrs[k].delay
  {
    seq(|instrs|, k requires 0 <= k < |instrs| => instrs[k].delay)
  }

  /** The state construction and `reset` leave: fresh tasks, a full pool, cycle 1. */
  function Initial(input: Input): (s: State)
    ensures |s.tasks| == input.numTasks && forall i :: 0 <= i < |s.tasks| ==> s.tasks[i] == FreshTask()
    ensures s.total == input.totals && s.current == input.totals
    ensures s.instrs == Script(input) && s.delays == Delays(s.instrs)
    ensures !s.deadlock && s.cycle == 1
  {
    State(seq(input.numTasks, _ => FreshTask()), input.totals, input.totals,
          Script(input), Delays(Script(input)), false, 1)
  }

  /** The position in the script of task `i`'s current instruction. */
  function Current(instrs: seq<Instruction>, t: TaskRec, i: nat): (q: nat)
    requires t.currInstr < Count(instrs, i + 1)
    ensures q < |instrs| && instrs[q].task == i + 1 && Count(instrs[..q], i + 1) == t.currInstr
  {
    Locate(instrs, i + 1, t.currInstr)
  }

  /** The task's parallel lists agree in length and name existing resource types. */
  predicate TypesOk(t: TaskRec, m: nat) {
    t.WellFormed() && forall e :: 0 <= e < |t.resourceTypes| ==> 1 <= t.resourceTypes[e] <= m
  }

  /** A type the task holds an entry for exists. */
  lemma TypeInRange(t: TaskRec, m: nat, rt: int)
    requires TypesOk(t, m) && rt in t.resourceTypes
    ensures 1 <= rt <= m
  {
    var e := IndexOf(t.resourceTypes, rt);
  }

  /**
   * The lookups for task `i` succeed: while it is active its current instruction exists, and a
   * request or release there names a type the task holds an entry for.
   */
  predicate Ready(instrs: seq<Instruction>, m: nat, t: TaskRec, i: nat) {
    && TypesOk(t, m)
    && (t.Active() ==>
          && t.currInstr < Count(instrs, i + 1)
          && (instrs[Current(instrs, t, i)].kind in {Request, Release} ==>
                instrs[Current(instrs, t, i)].resType in t.resourceTypes))
  }

  /** Every lookup of the cycle succeeds. */
  predicate Shaped(s: State) {
    && |s.current| == |s.total| && |s.delays| == |s.instrs|
    && forall i :: 0 <= i < |s.tasks| ==> Ready(s.instrs, |s.total|, s.tasks[i], i)
  }

  /** An active task that has waited is waiting at a request. */
  predicate WaitersAtRequest(s: State)
    requires Shaped(s)
  {
    forall i :: 0 <= i < |s.tasks| && s.tasks[i].Active() && s.tasks[i].currWait > 0 ==>
      s.instrs[Current(s.instrs, s.tasks[i], i)].kind == Request
  }

  // ---------------------------------------------------------------------------------------------
  // Round zero: every initiate runs before the first cycle, whatever its delay.

  /** Every initiate names a task and a resource type that exist. */
  predicate InitiatesOk(instrs: seq<Instruction>, n: nat, m: nat) {
    forall q :: 0 <= q < |instrs| && instrs[q].kind == Initiate ==>
      1 <= instrs[q].task <= n && 1 <= instrs[q].resType <= m
  }

  /** One instruction of the pre-pass. Under Banker's a claim above the type's total aborts the task. */
  function PrePassStep(p: Policy, s: State, ins: Instruction): (s': State)
    requires ins.kind == Initiate ==> 1 <= ins.task <= |s.tasks| && 1 <= ins.resType <= |s.total|
    ensures s'.total == s.total && s'.current == s.current && s'.instrs == s.instrs
    ensures s'.delays == s.delays && s'.deadlock == s.deadlock && s'.cycle == s.cycle
    ensures |s'.tasks| == |s.tasks|
  {
    if ins.kind != Initiate then s
    else
      var i := ins.task - 1;
      var t := s.tasks[i];
      if p == Fifo || ins.initialClaim <= s.total[ins.resType - 1] then
        s.(tasks := s.tasks[i := AfterInitiate(t, ins.resType, ins.initialClaim)])
      else
        s.(tasks := s.tasks[i := AfterAbort(t)])
  }

  /** The pre-pass over the first `j` instructions. */
  function PrePassUpTo(p: Policy, s: State, j: nat): (s': State)
    requires j <= |s.instrs| && InitiatesOk(s.instrs, |s.tasks|, |s.total|)
    ensures s'.total == s.total && s'.current == s.current && s'.instrs == s.instrs
    ensures s'.delays == s.delays && s'.deadlock == s.deadlock && s'.cycle == s.cycle
    ensures |s'.tasks| == |s.tasks|
  {
    if j == 0 then s else PrePassStep(p, PrePassUpTo(p, s, j - 1), s.instrs[j - 1])
  }

  function PrePass(p: Policy, s: State): State
    requires InitiatesOk(s.instrs, |s.tasks|, |s.total|)
  {
    PrePassUpTo(p, s, |s.instrs|)
  }

  // ---------------------------------------------------------------------------------------------
  // The pass over the tasks: count down delays, collect requests, apply releases and terminates.

  /** What the pass over the tasks leaves for the rest of the cycle. */
  datatype Pending = Pending(reqs: seq<nat>, relTypes: seq<int>, relAmounts: seq<int>)

  datatype Stage = Stage(run: State, pend: Pending)

  /** Script position `q` is a request whose task exists and holds an entry for the requested type. */
  predicate ReqTyped(s: State, q: nat) {
    && q < |s.instrs| && 1 <= s.instrs[q].task <= |s.tasks|
    && TypesOk(s.tasks[s.instrs[q].task - 1], |s.total|)
    && s.instrs[q].resType in s.tasks[s.instrs[q].task - 1].resourceTypes
  }

  /** Every queued release names an existing type. */
  predicate ReleasesOk(pend: Pending, m: nat) {
    |pend.relAmounts| == |pend.relTypes| &&
    forall k :: 0 <= k < |pend.relTypes| ==> 1 <= pend.relTypes[k] <= m
  }

  /** The pass for task `i`, the tasks before it already done: it changes task `i` and the countdowns only. */
  function DispatchTask(p: Policy, s: State, pend: Pending, i: nat): (g: Stage)
    requires |s.delays| == |s.instrs| && i < |s.tasks| && Ready(s.instrs, |s.total|, s.tasks[i], i)
    ensures g.run == s.(tasks := g.run.tasks, delays := g.run.delays)
    ensures |g.run.tasks| == |s.tasks| && |g.run.delays| == |s.delays|
    ensures forall j :: 0 <= j < |s.tasks| && j != i ==> g.run.tasks[j] == s.tasks[j]
  {
    var t := s.tasks[i];
    if !t.Active() then Stage(s, pend)
    else
      var q := Current(s.instrs, t, i);
      var ins := s.instrs[q];
      if s.delays[q] != 0 then
        Stage(s.(delays := s.delays[q := s.delays[q] - 1], tasks := s.tasks[i := AfterDelay(t)]), pend)
      else
        match ins.kind
        case Request =>
          var e := IndexOf(t.resourceTypes, ins.resType);
          if p == Fifo || ins.numberRequested <= t.initialClaims[e] - t.resourcesHeld[e] then
            Stage(s, pend.(reqs := pend.reqs + [q]))
          else
            Stage(s.(tasks := s.tasks[i := AfterAbort(t)]),
                  pend.(relTypes := pend.relTypes + t.resourceTypes,
                        relAmounts := pend.relAmounts + t.resourcesHeld))
        case Release =>
          Stage(s.(tasks := s.tasks[i := AfterRelease(t, ins.resType, ins.numberReleased)]),
                pend.(relTypes := pend.relTypes + [ins.resType],
                      relAmounts := pend.relAmounts + [ins.numberReleased]))
        case Terminate =>
          Stage(s.(tasks := s.tasks[i := AfterTerminate(t)]), pend)
        case Initiate =>
          Stage(s, pend)
  }

  /**
   * What the pass keeps, measured against the state `s0` it started from: every task keeps its
   * resource types, requests are queued only for types their task holds an entry for, and queued
   * releases name existing types.
   */
  predicate StageOk(s0: State, g: Stage) {
    && |g.run.tasks| == |s0.tasks| && |g.run.total| == |s0.total|
    && (forall j :: 0 <= j < |s0.tasks| ==>
          g.run.tasks[j].resourceTypes == s0.tasks[j].resourceTypes && TypesOk(g.run.tasks[j], |s0.total|))
    && (forall q :: q in g.pend.reqs ==> ReqTyped(g.run, q))
    && ReleasesOk(g.pend, |s0.total|)
  }

  /** The step of task `i` keeps what the pass keeps. */
  lemma DispatchTaskShape(p: Policy, s0: State, g0: Stage, i: nat, g: Stage)
    requires |g0.run.delays| == |g0.run.instrs| && i < |g0.run.tasks|
    requires Ready(g0.run.instrs, |g0.run.total|, g0.run.tasks[i], i)
    requires StageOk(s0, g0) && g == DispatchTask(p, g0.run, g0.pend, i)
    ensures StageOk(s0, g)
  {
    var s, pend := g0.run, g0.pend;
    var t := s.tasks[i];
    if t.Active() {
      var q := Current(s.instrs, t, i);
      if s.delays[q] == 0 && s.instrs[q].kind == Request {
        var e := IndexOf(t.resourceTypes, s.instrs[q].resType);
        if p == Fifo || s.instrs[q].numberRequested <= t.initialClaims[e] - t.resourcesHeld[e] {
          assert g == Stage(s, pend.(reqs := pend.reqs + [q]));
        } else {
          assert g.pend.reqs == pend.reqs;
        }
      } else {
        assert g.pend.reqs == pend.reqs;
      }
      forall q' | q' in g.pend.reqs ensures ReqTyped(g.run, q') {
        assert ReqTyped(s, q');
      }
    }
  }

  /** The pass over the first `i` tasks, in index order. */
  function DispatchUpTo(p: Policy, s: State, i: nat): (g: Stage)
    requires Shaped(s) && i <= |s.tasks|
    ensures g.run == s.(tasks := g.run.tasks, delays := g.run.delays)
    ensures |g.run.tasks| == |s.tasks| && |g.run.delays| == |s.delays|
    ensures forall j :: i <= j < |s.tasks| ==> g.run.tasks[j] == s.tasks[j]
  {
    if i == 0 then Stage(s, Pending([], [], []))
    else
      var g := DispatchUpTo(p, s, i - 1);
      DispatchTask(p, g.run, g.pend, i - 1)
  }

  /** The pass over the first `i` tasks keeps what the pass keeps. */
  lemma {:induction false} DispatchUpToShape(p: Policy, s: State, i: nat)
    requires Shaped(s) && i <= |s.tasks|
    ensures StageOk(s, DispatchUpTo(p, s, i))
  {
    if i > 0 {
      DispatchUpToShape(p, s, i - 1);
      DispatchUpToStep(p, s, i, DispatchUpTo(p, s, i - 1), DispatchUpTo(p, s, i));
    }
  }

  /** One more task of the pass keeps what the pass keeps. */
  lemma DispatchUpToStep(p: Policy, s: State, i: nat, g0: Stage, g: Stage)
    requires Shaped(s) && 0 < i <= |s.tasks|
    requires g0 == DispatchUpTo(p, s, i - 1) && g == DispatchUpTo(p, s, i) && StageOk(s, g0)
    ensures StageOk(s, g)
  {
    NextReady(s, g0.run, i - 1);
    DispatchTaskShape(p, s, g0, i - 1, g);
  }

  /** A task the pass has not reached yet is still ready. */
  lemma NextReady(s: State, s': State, i: nat)
    requires Shaped(s) && i < |s.tasks|
    requires s' == s.(tasks := s'.tasks, delays := s'.delays) && |s'.delays| == |s.delays|
    requires |s'.tasks| == |s.tasks| && s'.tasks[i] == s.tasks[i]
    ensures |s'.delays| == |s'.instrs| && Ready(s'.instrs, |s'.total|, s'.tasks[i], i)
  {
  }

  function Dispatch(p: Policy, s: State): (g: Stage)
    requires Shaped(s)
    ensures g.run == s.(tasks := g.run.tasks, delays := g.run.delays)
    ensures |g.run.tasks| == |s.tasks| && |g.run.delays| == |s.delays|
  {
    DispatchUpTo(p, s, |s.tasks|)
  }

  // ---------------------------------------------------------------------------------------------
  // Ordering and admission of the pending requests.

  /** The consecutive-wait count of the task behind pending request `q`. */
  function WaitOf(s: State, q: nat): nat
    requires ReqTyped(s, q)
  {
    s.tasks[s.instrs[q].task - 1].currWait
  }

  /** The consecutive-wait counts of the tasks behind the pending requests, in the same order. */
  function Keys(s: State, reqs: seq<nat>): (w: seq<nat>)
    requires forall q :: q in reqs ==> ReqTyped(s, q)
    ensures |w| == |reqs| && forall k :: 0 <= k < |reqs| ==> w[k] == WaitOf(s, reqs[k])
  {
    seq(|reqs|, k requires 0 <= k < |reqs| => WaitOf(s, reqs[k]))
  }

  /** The pending requests in admission order. */
  function SortedRequests(s: State, reqs: seq<nat>): (sorted: seq<nat>)
    requires forall q :: q in reqs ==> ReqTyped(s, q)
    ensures |sorted| == |reqs| && forall q :: q in sorted ==> q in reqs
  {
    var o := Order(Keys(s, reqs));
    var sorted := Permute(reqs, o);
    assert forall k :: 0 <= k < |sorted| ==> sorted[k] == reqs[o[k]];
    sorted
  }

  /** The FIFO admission test: the pool of the requested type covers the request. */
  function FifoCheck(s: State, q: nat): (ok: bool)
    requires |s.current| == |s.total| && ReqTyped(s, q)
    ensures ok <==> s.current[s.instrs[q].resType - 1] >= s.instrs[q].numberRequested
  {
    TypeInRange(s.tasks[s.instrs[q].task - 1], |s.total|, s.instrs[q].resType);
    !(s.current[s.instrs[q].resType - 1] < s.instrs[q].numberRequested)
  }

  /** The entries `e..` of task `t` each have their remaining claim covered by the pool. */
  function NeedsCoveredFrom(current: seq<int>, t: TaskRec, e: nat): (ok: bool)
    requires TypesOk(t, |current|) && e <= |t.resourceTypes|
    ensures ok <==> forall f :: e <= f < |t.resourceTypes| ==>
                      current[t.resourceTypes[f] - 1] >= t.initialClaims[f] - t.resourcesHeld[f]
    decreases |t.resourceTypes| - e
  {
    if e == |t.resourceTypes| then true
    else if current[t.resourceTypes[e] - 1] < t.initialClaims[e] - t.resourcesHeld[e] then false
    else NeedsCoveredFrom(current, t, e + 1)
  }

  /** The Banker's admission test: the pool covers the requester's remaining claim on every entry. */
  function BankersCheck(s: State, q: nat): (ok: bool)
    requires |s.current| == |s.total| && ReqTyped(s, q)
    ensures var t := s.tasks[s.instrs[q].task - 1];
      ok <==> forall f :: 0 <= f < |t.resourceTypes| ==>
                s.current[t.resourceTypes[f] - 1] >= t.initialClaims[f] - t.resourcesHeld[f]
  {
    NeedsCoveredFrom(s.current, s.tasks[s.instrs[q].task - 1], 0)
  }

  function Check(p: Policy, s: State, q: nat): bool
    requires |s.current| == |s.total| && ReqTyped(s, q)
  {
    if p == Fifo then FifoCheck(s, q) else BankersCheck(s, q)
  }

  /** The tasks keep their entries: same types, same claims, as many holdings. */
  predicate SameEntries(ts: seq<TaskRec>, ts': seq<TaskRec>) {
    |ts'| == |ts| &&
    forall j :: 0 <= j < |ts| ==>
      ts'[j].resourceTypes == ts[j].resourceTypes && ts'[j].initialClaims == ts[j].initialClaims &&
      |ts'[j].resourcesHeld| == |ts[j].resourcesHeld|
  }

  /** A granted request: the task takes the units and the pool gives them up at once. */
  function Grant(s: State, q: nat): (s': State)
    requires |s.current| == |s.total| && ReqTyped(s, q)
    ensures s' == s.(tasks := s'.tasks, current := s'.current)
    ensures SameEntries(s.tasks, s'.tasks) && |s'.current| == |s.current|
  {
    var i := s.instrs[q].task - 1;
    var ins := s.instrs[q];
    TypeInRange(s.tasks[i], |s.total|, ins.resType);
    s.(tasks := s.tasks[i := AfterGranted(s.tasks[i], ins.resType, ins.numberRequested)],
       current := s.current[ins.resType - 1 := s.current[ins.resType - 1] - ins.numberRequested])
  }

  /** A request that does not pass: the task waits. */
  function Deny(s: State, q: nat): (s': State)
    requires ReqTyped(s, q)
    ensures s' == s.(tasks := s'.tasks) && SameEntries(s.tasks, s'.tasks)
  {
    var i := s.instrs[q].task - 1;
    s.(tasks := s.tasks[i := AfterWait(s.tasks[i])])
  }

  /** Admission of one pending request: grant it if the policy's test passes, otherwise make its task wait. */
  function Admit(p: Policy, s: State, q: nat): (s': State)
    requires |s.current| == |s.total| && ReqTyped(s, q)
    ensures s' == s.(tasks := s'.tasks, current := s'.current)
    ensures SameEntries(s.tasks, s'.tasks) && |s'.current| == |s.current|
  {
    if Check(p, s, q) then Grant(s, q) else Deny(s, q)
  }

  /** Admission of the requests of `reqs`, in that order. */
  function AdmitAll(p: Policy, s: State, reqs: seq<nat>): (s': State)
    requires |s.current| == |s.total| && forall q :: q in reqs ==> ReqTyped(s, q)
    ensures s' == s.(tasks := s'.tasks, current := s'.current)
    ensures |s'.tasks| == |s.tasks| && |s'.current| == |s.current|
    decreases |reqs|
  {
    if reqs == [] then s
    else
      var s1 := Admit(p, s, reqs[0]);
      assert forall q :: q in reqs[1..] ==> ReqTyped(s1, q) by {
        forall q | q in reqs[1..] ensures ReqTyped(s1, q) {
          assert ReqTyped(s, q);
        }
      }
      AdmitAll(p, s1, reqs[1..])
  }

  // ---------------------------------------------------------------------------------------------
  // Crediting units back to the pool.

  /** The pool after adding `amounts[k]` units of type `types[k]` for every `k`, in order. */
  function Credit(cur: seq<int>, types: seq<int>, amounts: seq<int>): (c: seq<int>)
    requires |amounts| == |types| && forall k :: 0 <= k < |types| ==> 1 <= types[k] <= |cur|
    ensures |c| == |cur|
    ensures forall x :: 0 <= x < |cur| ==> c[x] == cur[x] + SumHeld(types, amounts, x + 1)
  {
    if types == [] then cur
    else
      var n := |types| - 1;
      var c := Credit(cur, types[..n], amounts[..n]);
      c[types[n] - 1 := c[types[n] - 1] + amounts[n]]
  }

  // ---------------------------------------------------------------------------------------------
  // FIFO deadlock detection and resolution.

  /** Every active task waited at least once in a row: the FIFO deadlock flag. */
  predicate AllWaiting(tasks: seq<TaskRec>) {
    forall i :: 0 <= i < |tasks| && tasks[i].Active() ==> tasks[i].currWait > 0
  }

  /** What deadlock resolution relies on: lookups succeed and every active task waits at a request. */
  predicate Stuck(s: State) {
    Shaped(s) && AllWaiting(s.tasks) && WaitersAtRequest(s)
  }

  /** The re-check of one waiting task: its request fits the pool as it is now. */
  predicate Fits(s: State, i: nat)
    requires Stuck(s) && i < |s.tasks| && s.tasks[i].Active()
  {
    var ins := s.instrs[Current(s.instrs, s.tasks[i], i)];
    TypeInRange(s.tasks[i], |s.total|, ins.resType);
    ins.numberRequested <= s.current[ins.resType - 1]
  }

  /** Some active task's request fits: the deadlock is over. */
  predicate Recheck(s: State)
    requires Stuck(s)
  {
    exists i :: 0 <= i < |s.tasks| && s.tasks[i].Active() && Fits(s, i)
  }

  /** Aborting task `v` and crediting everything it holds to the pool at once. */
  function AbortTask(s: State, v: nat): (s': State)
    requires Shaped(s) && v < |s.tasks|
    ensures s'.total == s.total && s'.instrs == s.instrs && s'.delays == s.delays
    ensures s'.deadlock == s.deadlock && s'.cycle == s.cycle
    ensures |s'.tasks| == |s.tasks| && s'.tasks[v] == AfterAbort(s.tasks[v])
    ensures forall j :: 0 <= j < |s.tasks| && j != v ==> s'.tasks[j] == s.tasks[j]
    ensures s'.current == Credit(s.current, s.tasks[v].resourceTypes, s.tasks[v].resourcesHeld)
  {
    var t := s.tasks[v];
    s.(tasks := s.tasks[v := AfterAbort(t)], current := Credit(s.current, t.resourceTypes, t.resourcesHeld))
  }

  /** Aborting a task keeps what resolution relies on. */
  lemma AbortStuck(s: State, v: nat)
    requires Stuck(s) && v < |s.tasks|
    ensures Stuck(AbortTask(s, v))
  {
    var s' := AbortTask(s, v);
    assert forall i :: 0 <= i < |s.tasks| && i != v ==> s'.tasks[i] == s.tasks[i];
  }

  /** How deadlock handling ended: the state, the victims in the order aborted, and whether it ran out of tasks. */
  datatype Resolution = Resolution(run: State, victims: seq<nat>, fault: bool)

  /**
   * The resolution loop from victim candidate `toAbort`: stop once a request fits; otherwise skip
   * the candidate if it is inactive (once), abort it and move on. Running past the last task is a
   * fault.
   */
  function Resolve(s: State, toAbort: nat): (r: Resolution)
    requires Stuck(s)
    ensures r.run.total == s.total && r.run.instrs == s.instrs && r.run.delays == s.delays
    ensures r.run.cycle == s.cycle && |r.run.tasks| == |s.tasks|
    decreases |s.tasks| - toAbort, 1
  {
    if Recheck(s) then Resolution(s.(deadlock := false), [], false)
    else if toAbort >= |s.tasks| then Resolution(s, [], true)
    else
      var v := if !s.tasks[toAbort].Active() then toAbort + 1 else toAbort;
      if v >= |s.tasks| then Resolution(s, [], true) else AbortThenResolve(s, v)
  }

  /** One round of resolution past the re-check: abort victim `v`, then go on with the next candidate. */
  function AbortThenResolve(s: State, v: nat): (r: Resolution)
    requires Stuck(s) && v < |s.tasks|
    ensures r.run.total == s.total && r.run.instrs == s.instrs && r.run.delays == s.delays
    ensures r.run.cycle == s.cycle && |r.run.tasks| == |s.tasks|
    decreases |s.tasks| - v, 0
  {
    AbortStuck(s, v);
    var r := Resolve(AbortTask(s, v), v + 1);
    Resolution(r.run, [v] + r.victims, r.fault)
  }

  /** One round of resolution that aborts task `v` and goes on from the next candidate. */
  lemma ResolveStep(s: State, toAbort: nat, v: nat, r': Resolution)
    requires Stuck(s) && !Recheck(s) && toAbort < |s.tasks|
    requires v == (if !s.tasks[toAbort].Active() then toAbort + 1 else toAbort) && v < |s.tasks|
    requires Stuck(AbortTask(s, v)) && r' == Resolve(AbortTask(s, v), v + 1)
    ensures Resolve(s, toAbort) == Resolution(r'.run, [v] + r'.victims, r'.fault)
  {
  }

  /** The same round, with the state after the abort and the rest of resolution from the next candidate. */
  lemma ResolveNext(s: State, toAbort: nat, v: nat) returns (r': Resolution)
    requires Stuck(s) && !Recheck(s) && toAbort < |s.tasks|
    requires v == (if !s.tasks[toAbort].Active() then toAbort + 1 else toAbort) && v < |s.tasks|
    ensures Stuck(AbortTask(s, v)) && r' == Resolve(AbortTask(s, v), v + 1)
    ensures Resolve(s, toAbort) == Resolution(r'.run, [v] + r'.victims, r'.fault)
  {
    AbortStuck(s, v);
    r' := Resolve(AbortTask(s, v), v + 1);
  }

  /** Resolution keeps what it relies on, so the rest of the cycle can go on from its result. */
  lemma {:induction false} ResolveStuck(s: State, toAbort: nat)
    requires Stuck(s)
    ensures Stuck(Resolve(s, toAbort).run)
    decreases |s.tasks| - toAbort
  {
    if !Recheck(s) && toAbort < |s.tasks| {
      var v := if !s.tasks[toAbort].Active() then toAbort + 1 else toAbort;
      if v < |s.tasks| {
        var s' := AbortTask(s, v);
        AbortStuck(s, v);
        var r' := Resolve(s', v + 1);
        ResolveStep(s, toAbort, v, r');
        ResolveStuck(s', v + 1);
      }
    }
  }

  // ---------------------------------------------------------------------------------------------
  // One cycle.

  /** Every task is complete or aborted. */
  predicate Finished(tasks: seq<TaskRec>) {
    forall i :: 0 <= i < |tasks| ==> tasks[i].aborted || tasks[i].complete
  }

  /** The part of a cycle both policies share: pass, ordering, admission, credit, next cycle. */
  function CycleRest(p: Policy, s: State): (s': State)
    requires Shaped(s)
    ensures s'.total == s.total && s'.instrs == s.instrs && |s'.tasks| == |s.tasks|
    ensures s'.cycle == s.cycle + 1 && s'.deadlock == s.deadlock
  {
    var g := Dispatch(p, s);
    DispatchUpToShape(p, s, |s.tasks|);
    var sorted := SortedRequests(g.run, g.pend.reqs);
    var a := AdmitAll(p, g.run, sorted);
    a.(current := Credit(a.current, g.pend.relTypes, g.pend.relAmounts), cycle := a.cycle + 1)
  }

  datatype Outcome = Advanced(run: State, victims: seq<nat>) | Stopped(run: State, victims: seq<nat>)

  /** One cycle. Under FIFO it first flags and resolves a deadlock; a resolution that faults stops the run. */
  function Cycle(p: Policy, s: State): (o: Outcome)
    requires Shaped(s) && WaitersAtRequest(s)
    ensures o.run.total == s.total && o.run.instrs == s.instrs && |o.run.tasks| == |s.tasks|
  {
    if p == Bankers then Advanced(CycleRest(p, s), [])
    else
      var s1 := s.(deadlock := AllWaiting(s.tasks));
      if !s1.deadlock then Advanced(CycleRest(p, s1), [])
      else
        var r := Resolve(s1, 0);
        ResolveStuck(s1, 0);
        if r.fault then Stopped(r.run, r.victims) else Advanced(CycleRest(p, r.run), r.victims)
  }
}
