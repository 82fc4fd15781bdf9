/**
 * The resource manager as the program keeps it: task objects updated in place, the pools and the
 * countdowns as lists the loops rewrite, and the cycle loops of both policies. Every method is
 * proved to do what the corresponding function of module Engine describes.
 */
module Manager {
  import opened Instructions
  import opened Tasks
  import opened Ordering
  import opened Engine
  import opened Invariant
  import opened Startup
  import opened Run
  import opened Report

  /** `n` new task objects, all distinct, each as a new task starts. */
  method MakeTasks(n: nat) returns (ts: seq<Task>)
    ensures |ts| == n && forall i :: 0 <= i < n ==> fresh(ts[i]) && ts[i].Rec() == FreshTask()
    ensures forall i, j :: 0 <= i < j < n ==> ts[i] != ts[j]
  {
    ts := [];
    while |ts| < n
      invariant |ts| <= n
      invariant forall i :: 0 <= i < |ts| ==> fresh(ts[i]) && ts[i].Rec() == FreshTask()
      invariant forall i, j :: 0 <= i < j < |ts| ==> ts[i] != ts[j]
    {
      var t := new Task();
      ts := ts + [t];
    }
  }

  /** The instruction list and its countdowns, one instruction per input line. */
  method MakeScript(lines: seq<Quintuple>) returns (instrs: seq<Instruction>, delays: seq<int>)
    ensures instrs == Script(Input(0, [], lines)) && delays == Delays(instrs)
  {
    instrs, delays := [], [];
    var k := 0;
    while k < |lines|
      invariant k <= |lines| && |instrs| == k && |delays| == k
      invariant forall j :: 0 <= j < k ==> instrs[j] == MakeInstruction(lines[j]) && delays[j] == instrs[j].delay
    {
      var ins := MakeInstruction(lines[k]);
      instrs, delays := instrs + [ins], delays + [ins.delay];
      k := k + 1;
    }
  }

  /** Admitting one request keeps the other pending requests' lookups. */
  lemma AdmitTyped(p: Policy, s: State, q: nat, rest: seq<nat>)
    requires |s.current| == |s.total| && ReqTyped(s, q) && forall q' :: q' in rest ==> ReqTyped(s, q')
    ensures forall q' :: q' in rest ==> ReqTyped(Admit(p, s, q), q')
  {
    forall q' | q' in rest ensures ReqTyped(Admit(p, s, q), q') {
      assert ReqTyped(s, q');
    }
  }

  /** The rest of a cycle, step by step: the pass, admission in order, then credit and the next cycle. */
  lemma CycleRestIs(p: Policy, s0: State, g: Stage, a: State, s': State)
    requires Shaped(s0) && g == Dispatch(p, s0) && StageOk(s0, g)
    requires a == AdmitAll(p, g.run, SortedRequests(g.run, g.pend.reqs))
    requires s' == a.(current := Credit(a.current, g.pend.relTypes, g.pend.relAmounts), cycle := a.cycle + 1)
    ensures s' == CycleRest(p, s0)
  {
  }

  lemma ConcatAssoc<T>(a: seq<T>, b: seq<T>, c: seq<T>)
    ensures a + (b + c) == (a + b) + c
  {
  }

  /** The prefix of a list up to its length is the list. */
  lemma WholePrefix<T>(s: seq<T>)
    ensures s[..|s|] == s
  {
  }

  /** The lookup of a task's entry for a resource type: the first entry naming it. */
  method FindEntry(types: seq<int>, rt: int) returns (e: nat)
    requires rt in types
    ensures e == IndexOf(types, rt)
  {
    e := 0;
    while types[e] != rt
      invariant e < |types| && rt !in types[..e]
      decreases |types| - e
    {
      assert types[..e + 1] == types[..e] + [types[e]];
      e := e + 1;
    }
    assert rt in types[e..];
  }

  /** Queuing every entry a task holds for the end-of-cycle credit, entry by entry. */
  method QueueHoldings(pend: Pending, types: seq<int>, held: seq<int>) returns (pend': Pending)
    requires |held| == |types|
    ensures pend' == pend.(relTypes := pend.relTypes + types, relAmounts := pend.relAmounts + held)
  {
    pend' := pend;
    var k := 0;
    while k < |types|
      invariant k <= |types|
      invariant pend' == pend.(relTypes := pend.relTypes + types[..k], relAmounts := pend.relAmounts + held[..k])
    {
      assert types[..k + 1] == types[..k] + [types[k]] && held[..k + 1] == held[..k] + [held[k]];
      pend' := pend'.(relTypes := pend'.relTypes + [types[k]], relAmounts := pend'.relAmounts + [held[k]]);
      k := k + 1;
    }
    assert types[..k] == types && held[..k] == held;
  }

  class ResManager {
    var original: Input
    var tasks: seq<Task>
    var total: seq<int>
    var current: seq<int>
    var instrs: seq<Instruction>
    var delays: seq<int>
    var deadlock: bool
    var cycle: int

    /** No task object appears twice, so updating one leaves the others alone. */
    predicate TasksDistinct()
      reads this
    {
      forall i, j :: 0 <= i < j < |tasks| ==> tasks[i] != tasks[j]
    }

    /** The manager's state as a value. */
    function Abs(): State
      reads this, tasks
    {
      State(RecsOf(tasks), total, current, instrs, delays, deadlock, cycle)
    }

    /** The state built from the input: fresh tasks, a full pool, the instructions, cycle 1. */
    constructor (input: Input)
      ensures TasksDistinct() && original == input && Abs() == Initial(input)
      ensures forall i :: 0 <= i < |tasks| ==> fresh(tasks[i])
    {
      var ts := MakeTasks(input.numTasks);
      var ins, ds := MakeScript(input.lines);
      original := input;
      tasks := ts;
      total, current := input.totals, input.totals;
      instrs, delays := ins, ds;
      deadlock := false;
      cycle := 1;
      new;
      assert Script(Input(0, [], input.lines)) == Script(input);
      assert RecsOf(tasks) == Initial(input).tasks;
    }

    /** The scan of the script for task `i`'s current instruction. */
    method LocateCurrent(i: nat) returns (q: nat)
      requires i < |tasks| && tasks[i].currInstr < Count(instrs, i + 1)
      ensures q == Current(instrs, tasks[i].Rec(), i)
    {
      var seen: nat := 0;
      q := 0;
      assert instrs[..0] == [];
      while q < |instrs|
        invariant q <= |instrs| && seen == Count(instrs[..q], i + 1) && seen <= tasks[i].currInstr
        decreases |instrs| - q
      {
        CountSnoc(instrs, q, i + 1);
        if instrs[q].task == i + 1 {
          if seen == tasks[i].currInstr {
            LocateUnique(instrs, i + 1, seen, q);
            return;
          }
          seen := seen + 1;
        }
        q := q + 1;
      }
      WholePrefix(instrs);
      assert false;
    }

    /**
     * The step of the pass for task `i`: a countdown that has not run out is decremented and
     * charges a cycle; otherwise the current instruction runs.
     */
    method DispatchOne(p: Policy, i: nat, pend: Pending) returns (pend': Pending)
      requires TasksDistinct() && |delays| == |instrs| && i < |tasks|
      requires Ready(instrs, |total|, tasks[i].Rec(), i)
      modifies this, tasks[i]
      ensures tasks == old(tasks) && original == old(original)
      ensures Stage(Abs(), pend') == DispatchTask(p, old(Abs()), pend, i)
    {
      var t := tasks[i];
      pend' := pend;
      if t.aborted || t.complete {
        return;
      }
      var q := LocateCurrent(i);
      if delays[q] != 0 {
        CountDown(p, i, q, pend);
      } else {
        pend' := RunCurrent(p, i, q, pend);
      }
    }

    /** Task `i`'s current instruction `q` is still delayed: its countdown drops and the task is charged a cycle. */
    method CountDown(p: Policy, i: nat, q: nat, pend: Pending)
      requires TasksDistinct() && |delays| == |instrs| && i < |tasks|
      requires Ready(instrs, |total|, tasks[i].Rec(), i) && tasks[i].Rec().Active()
      requires q == Current(instrs, tasks[i].Rec(), i) && delays[q] != 0
      modifies this, tasks[i]
      ensures tasks == old(tasks) && original == old(original)
      ensures Stage(Abs(), pend) == DispatchTask(p, old(Abs()), pend, i)
    {
      delays := delays[q := delays[q] - 1];
      tasks[i].Delay();
    }

    /**
     * Task `i`'s current instruction `q`, its countdown run out: a request is queued (under
     * Banker's only within the remaining claim, else the task is aborted and its holdings queued
     * for credit), a release is applied and queued for credit, and a terminate completes the task.
     */
    method RunCurrent(p: Policy, i: nat, q: nat, pend: Pending) returns (pend': Pending)
      requires TasksDistinct() && |delays| == |instrs| && i < |tasks|
      requires Ready(instrs, |total|, tasks[i].Rec(), i) && tasks[i].Rec().Active()
      requires q == Current(instrs, tasks[i].Rec(), i) && delays[q] == 0
      modifies tasks[i]
      ensures Stage(Abs(), pend') == DispatchTask(p, old(Abs()), pend, i)
    {
      var t := tasks[i];
      var ins := instrs[q];
      pend' := pend;
      if ins.kind == Request {
        var e := FindEntry(t.resourceTypes, ins.resType);
        if p == Fifo || ins.numberRequested <= t.initialClaims[e] - t.resourcesHeld[e] {
          pend' := pend.(reqs := pend.reqs + [q]);
        } else {
          t.Abort();
          pend' := QueueHoldings(pend, t.resourceTypes, t.resourcesHeld);
        }
      } else if ins.kind == Release {
        t.Release(ins.resType, ins.numberReleased);
        pend' := pend.(relTypes := pend.relTypes + [ins.resType], relAmounts := pend.relAmounts + [ins.numberReleased]);
      } else if ins.kind == Terminate {
        t.Terminate();
      }
    }

    /** The pass over the tasks in index order, collecting the requests and the releases of the cycle. */
    method DispatchPass(p: Policy) returns (pend: Pending)
      requires TasksDistinct() && Shaped(Abs())
      modifies this, tasks
      ensures tasks == old(tasks) && original == old(original)
      ensures Stage(Abs(), pend) == Dispatch(p, old(Abs()))
    {
      ghost var s0 := Abs();
      pend := Pending([], [], []);
      var i := 0;
      while i < |tasks|
        invariant tasks == old(tasks) && original == old(original) && i <= |tasks|
        invariant Stage(Abs(), pend) == DispatchUpTo(p, s0, i)
        decreases |tasks| - i
      {
        i, pend := DispatchNext(p, i, pend, s0);
      }
    }

    /** The pass from task `i` on, one task further. */
    method DispatchNext(p: Policy, i: nat, pend: Pending, ghost s0: State) returns (i': nat, pend': Pending)
      requires TasksDistinct() && Shaped(s0) && i < |s0.tasks| && i < |tasks|
      requires Stage(Abs(), pend) == DispatchUpTo(p, s0, i)
      modifies this, tasks
      ensures tasks == old(tasks) && original == old(original)
      ensures i' == i + 1 && Stage(Abs(), pend') == DispatchUpTo(p, s0, i')
    {
      NextReady(s0, Abs(), i);
      pend' := DispatchOne(p, i, pend);
      i' := i + 1;
    }

    /** The consecutive-wait counts of the tasks behind the pending requests, read for the ordering. */
    method PendingWaits(reqs: seq<nat>) returns (waits: seq<nat>)
      requires forall q :: q in reqs ==> ReqTyped(Abs(), q)
      ensures waits == Keys(Abs(), reqs)
    {
      waits := [];
      var k := 0;
      while k < |reqs|
        invariant k <= |reqs| && |waits| == k
        invariant forall j :: 0 <= j < k ==> waits[j] == WaitOf(Abs(), reqs[j])
      {
        assert reqs[k] in reqs;
        waits := waits + [tasks[instrs[reqs[k]].task - 1].currWait];
        k := k + 1;
      }
    }

    /** The pending requests in admission order: by consecutive waits, longest first, ties in queue order. */
    method OrderRequests(reqs: seq<nat>) returns (sorted: seq<nat>)
      requires forall q :: q in reqs ==> ReqTyped(Abs(), q)
      ensures sorted == SortedRequests(Abs(), reqs) && multiset(sorted) == multiset(reqs)
      ensures forall q :: q in sorted ==> ReqTyped(Abs(), q)
    {
      var waits := PendingWaits(reqs);
      sorted := SortRequests(reqs, waits);
      forall q | q in sorted ensures ReqTyped(Abs(), q) {
        assert q in multiset(sorted);
      }
    }

    /** `fifo_check`: the pool of the requested type covers the request. */
    method FifoSafe(q: nat) returns (ok: bool)
      requires |current| == |total| && ReqTyped(Abs(), q)
      ensures ok == FifoCheck(Abs(), q)
    {
      var rt := instrs[q].resType;
      TypeInRange(tasks[instrs[q].task - 1].Rec(), |total|, rt);
      ok := !(current[rt - 1] < instrs[q].numberRequested);
    }

    /** `bankers_check`: entry by entry, the pool covers the requester's remaining claim. */
    method BankersSafe(q: nat) returns (ok: bool)
      requires |current| == |total| && ReqTyped(Abs(), q)
      ensures ok == BankersCheck(Abs(), q)
    {
      var t := tasks[instrs[q].task - 1];
      var f := 0;
      while f < |t.initialClaims|
        invariant f <= |t.initialClaims|
        invariant forall f' :: 0 <= f' < f ==> current[t.resourceTypes[f'] - 1] >= t.initialClaims[f'] - t.resourcesHeld[f']
      {
        if current[t.resourceTypes[f] - 1] < t.initialClaims[f] - t.resourcesHeld[f] {
          return false;
        }
        f := f + 1;
      }
      return true;
    }

    /** Admission of the ordered requests, one after another: grant if the policy's test passes, otherwise wait. */
    method AdmitPass(p: Policy, sorted: seq<nat>)
      requires TasksDistinct() && |current| == |total| && forall q :: q in sorted ==> ReqTyped(Abs(), q)
      modifies this, tasks
      ensures tasks == old(tasks) && original == old(original)
      ensures Abs() == AdmitAll(p, old(Abs()), sorted)
    {
      ghost var s0 := Abs();
      var k := 0;
      while k < |sorted|
        invariant k <= |sorted| && tasks == old(tasks) && original == old(original) && |current| == |total|
        invariant forall q :: q in sorted[k..] ==> ReqTyped(Abs(), q)
        invariant AdmitAll(p, Abs(), sorted[k..]) == AdmitAll(p, s0, sorted)
        decreases |sorted| - k
      {
        k := AdmitNext(p, sorted, k, s0);
      }
    }

    /** Admission from position `k` of the ordered requests on, one request further. */
    method AdmitNext(p: Policy, sorted: seq<nat>, k: nat, ghost s0: State) returns (k': nat)
      requires TasksDistinct() && |current| == |total| && k < |sorted|
      requires |s0.current| == |s0.total| && forall q :: q in sorted ==> ReqTyped(s0, q)
      requires forall q :: q in sorted[k..] ==> ReqTyped(Abs(), q)
      requires AdmitAll(p, Abs(), sorted[k..]) == AdmitAll(p, s0, sorted)
      modifies this, tasks
      ensures tasks == old(tasks) && original == old(original) && |current| == |total|
      ensures k' == k + 1 && forall q :: q in sorted[k'..] ==> ReqTyped(Abs(), q)
      ensures AdmitAll(p, Abs(), sorted[k'..]) == AdmitAll(p, s0, sorted)
    {
      var q := sorted[k];
      ghost var a := Abs();
      assert sorted[k..][0] == q && sorted[k..][1..] == sorted[k + 1..];
      assert q in sorted[k..];
      assert forall q' :: q' in sorted[k + 1..] ==> q' in sorted[k..];
      AdmitTyped(p, a, q, sorted[k + 1..]);
      AdmitOne(p, q);
      k' := k + 1;
    }

    /** Admission of one pending request. */
    method AdmitOne(p: Policy, q: nat)
      requires TasksDistinct() && |current| == |total| && ReqTyped(Abs(), q)
      modifies this, tasks[instrs[q].task - 1]
      ensures tasks == old(tasks) && original == old(original)
      ensures Abs() == Admit(p, old(Abs()), q)
    {
      var ok;
      if p == Fifo {
        ok := FifoSafe(q);
      } else {
        ok := BankersSafe(q);
      }
      ghost var s := Abs();
      assert ok == Check(p, s, q);
      if ok {
        GrantOne(q);
        assert Abs() == Grant(s, q);
      } else {
        DenyOne(q);
        assert Abs() == Deny(s, q);
      }
    }

    /** A request that does not pass: the task waits. */
    method DenyOne(q: nat)
      requires TasksDistinct() && ReqTyped(Abs(), q)
      modifies tasks[instrs[q].task - 1]
      ensures Abs() == Deny(old(Abs()), q)
    {
      tasks[instrs[q].task - 1].Wait();
    }

    /** A granted request: the task takes the units and the pool gives them up at once. */
    method GrantOne(q: nat)
      requires TasksDistinct() && |current| == |total| && ReqTyped(Abs(), q)
      modifies this, tasks[instrs[q].task - 1]
      ensures tasks == old(tasks) && original == old(original)
      ensures Abs() == Grant(old(Abs()), q)
    {
      var ins := instrs[q];
      var t := tasks[ins.task - 1];
      TypeInRange(t.Rec(), |total|, ins.resType);
      t.Granted(ins.resType, ins.numberRequested);
      current := current[ins.resType - 1 := current[ins.resType - 1] - ins.numberRequested];
    }

    /** Adding `amounts[k]` units of type `types[k]` back to the pool, for every `k` in order. */
    method CreditPass(types: seq<int>, amounts: seq<int>)
      requires |amounts| == |types| && forall k :: 0 <= k < |types| ==> 1 <= types[k] <= |current|
      modifies this
      ensures tasks == old(tasks) && original == old(original)
      ensures Abs() == old(Abs()).(current := Credit(old(current), types, amounts))
    {
      var k := 0;
      while k < |types|
        invariant k <= |types| && current == Credit(old(current), types[..k], amounts[..k])
        invariant tasks == old(tasks) && original == old(original) && total == old(total) && instrs == old(instrs)
        invariant delays == old(delays) && deadlock == old(deadlock) && cycle == old(cycle)
      {
        assert types[..k + 1][..k] == types[..k] && amounts[..k + 1][..k] == amounts[..k];
        current := current[types[k] - 1 := current[types[k] - 1] + amounts[k]];
        k := k + 1;
      }
      assert types[..k] == types && amounts[..k] == amounts;
    }

    method NextCycle()
      modifies this
      ensures tasks == old(tasks) && original == old(original)
      ensures Abs() == old(Abs()).(cycle := old(cycle) + 1)
    {
      cycle := cycle + 1;
    }

    /** The part of a cycle both policies share: the pass, the ordering, admission, the credit, the next cycle. */
    method RestOfCycle(p: Policy)
      requires TasksDistinct() && Shaped(Abs())
      modifies this, tasks
      ensures tasks == old(tasks) && original == old(original)
      ensures Abs() == CycleRest(p, old(Abs()))
    {
      ghost var s0 := Abs();
      var pend := DispatchPass(p);
      ghost var g := Stage(Abs(), pend);
      DispatchUpToShape(p, s0, |tasks|);
      var sorted := OrderRequests(pend.reqs);
      AdmitPass(p, sorted);
      ghost var a := Abs();
      CreditPass(pend.relTypes, pend.relAmounts);
      NextCycle();
      CycleRestIs(p, s0, g, a, Abs());
    }

    /**
     * Round zero: every initiate of the script runs, whatever its delay. Under Banker's a claim
     * above the type's total aborts the task instead.
     */
    method InitiateAll(p: Policy)
      requires TasksDistinct() && InitiatesOk(Script(original), original.numTasks, |original.totals|)
      requires Abs() == Initial(original).(deadlock := deadlock)
      modifies tasks
      ensures Abs() == Start(p, original).(deadlock := deadlock)
    {
      ghost var s0 := Initial(original);
      var j := 0;
      while j < |instrs|
        invariant j <= |instrs| && Abs() == PrePassUpTo(p, s0, j).(deadlock := deadlock)
        decreases |instrs| - j
      {
        j := InitiateNext(p, j, s0);
      }
    }

    /** The pre-pass from instruction `j` on, one instruction further. */
    method InitiateNext(p: Policy, j: nat, ghost s0: State) returns (j': nat)
      requires TasksDistinct() && InitiatesOk(s0.instrs, |s0.tasks|, |s0.total|) && j < |s0.instrs|
      requires Abs() == PrePassUpTo(p, s0, j).(deadlock := deadlock)
      modifies tasks
      ensures j' == j + 1 && Abs() == PrePassUpTo(p, s0, j').(deadlock := deadlock)
    {
      ghost var x := PrePassUpTo(p, s0, j);
      InitiateStep(p, instrs[j]);
      j' := j + 1;
      assert PrePassUpTo(p, s0, j') == PrePassStep(p, x, s0.instrs[j]);
    }

    /** One instruction of round zero. */
    method InitiateStep(p: Policy, ins: Instruction)
      requires TasksDistinct()
      requires ins.kind == Initiate ==> 1 <= ins.task <= |tasks| && 1 <= ins.resType <= |total|
      modifies tasks
      ensures Abs() == PrePassStep(p, old(Abs()), ins)
    {
      if ins.kind == Initiate {
        var t := tasks[ins.task - 1];
        if p == Fifo || ins.initialClaim <= total[ins.resType - 1] {
          t.Initiate(ins.resType, ins.initialClaim);
        } else {
          t.Abort();
        }
      }
    }

    /** Every active task has waited at least once in a row. */
    method AllWaitingNow() returns (w: bool)
      ensures w == AllWaiting(Abs().tasks)
    {
      w := true;
      var i := 0;
      while i < |tasks|
        invariant i <= |tasks|
        invariant w == forall j :: 0 <= j < i && tasks[j].Rec().Active() ==> tasks[j].currWait > 0
      {
        var t := tasks[i];
        if t.complete || t.aborted {
        } else if t.currWait <= 0 {
          w := false;
        }
        i := i + 1;
      }
    }

    /** The re-check of a deadlock: some active task's request fits the pool as it is now. */
    method AnyRequestFits() returns (fits: bool)
      requires Stuck(Abs())
      ensures fits == Recheck(Abs())
    {
      var i := 0;
      while i < |tasks|
        invariant i <= |tasks|
        invariant forall j :: 0 <= j < i && Abs().tasks[j].Active() ==> !Fits(Abs(), j)
      {
        var t := tasks[i];
        if !(t.aborted || t.complete) {
          assert Abs().tasks[i] == t.Rec();
          var q := LocateCurrent(i);
          var ins := instrs[q];
          TypeInRange(t.Rec(), |total|, ins.resType);
          if ins.numberRequested <= current[ins.resType - 1] {
            assert Fits(Abs(), i);
            return true;
          }
        }
        i := i + 1;
      }
      return false;
    }

    /** Aborting task `v` and crediting everything it holds to the pool at once. */
    method AbortVictim(v: nat)
      requires TasksDistinct() && Shaped(Abs()) && v < |tasks|
      modifies this, tasks[v]
      ensures tasks == old(tasks) && original == old(original)
      ensures Abs() == AbortTask(old(Abs()), v)
    {
      var t := tasks[v];
      t.Abort();
      assert TypesOk(t.Rec(), |total|);
      CreditPass(t.resourceTypes, t.resourcesHeld);
    }

    /**
     * `handle_deadlock`: while the deadlock lasts, abort the next candidate (skipping it once if
     * it is no longer active) and credit its holdings. A candidate past the last task is a fault.
     */
    method HandleDeadlock() returns (victims: seq<nat>, fault: bool)
      requires TasksDistinct() && (deadlock ==> Stuck(Abs()))
      modifies this, tasks
      ensures tasks == old(tasks) && original == old(original)
      ensures old(deadlock) ==> var r := Resolve(old(Abs()), 0); Abs() == r.run && victims == r.victims && fault == r.fault
      ensures !old(deadlock) ==> Abs() == old(Abs()) && victims == [] && !fault
    {
      victims, fault := [], false;
      if deadlock {
        victims, fault := ResolveLoop();
      }
    }

    /** The loop of `handle_deadlock`, entered with the deadlock flag set. */
    method ResolveLoop() returns (victims: seq<nat>, fault: bool)
      requires TasksDistinct() && deadlock && Stuck(Abs())
      modifies this, tasks
      ensures tasks == old(tasks) && original == old(original)
      ensures var r := Resolve(old(Abs()), 0); Abs() == r.run && victims == r.victims && fault == r.fault
    {
      ghost var r0 := Resolve(Abs(), 0);
      ghost var rest := r0;
      victims, fault := [], false;
      var toAbort: nat := 0;
      while true
        invariant tasks == old(tasks) && original == old(original) && deadlock
        invariant Stuck(Abs()) && toAbort <= |tasks| && rest == Resolve(Abs(), toAbort)
        invariant r0.run == rest.run && r0.fault == rest.fault && r0.victims == victims + rest.victims
        decreases |tasks| - toAbort
      {
        var stop: bool, v: nat;
        ghost var rest': Resolution;
        stop, v, fault, rest' := ResolveRound(toAbort, rest);
        if stop {
          return;
        }
        ConcatAssoc(victims, [v], rest'.victims);
        victims, toAbort, rest := victims + [v], v + 1, rest';
      }
    }

    /**
     * One round of the loop of `handle_deadlock`: it stops when a request fits (clearing the flag)
     * or the candidates run out (a fault), and otherwise aborts victim `v`. `rest` is what
     * resolution from this round on comes to, `rest'` what it comes to from the next round.
     */
    method ResolveRound(toAbort: nat, ghost rest: Resolution) returns (stop: bool, v: nat, fault: bool, ghost rest': Resolution)
      requires TasksDistinct() && deadlock && Stuck(Abs()) && toAbort <= |tasks|
      requires rest == Resolve(Abs(), toAbort)
      modifies this, tasks
      ensures tasks == old(tasks) && original == old(original)
      ensures stop ==> Abs() == rest.run && rest.victims == [] && fault == rest.fault
      ensures !stop ==> deadlock && Stuck(Abs()) && toAbort <= v < |tasks| && rest' == Resolve(Abs(), v + 1)
      ensures !stop ==> rest.run == rest'.run && rest.fault == rest'.fault && rest.victims == [v] + rest'.victims
    {
      var fits := AnyRequestFits();
      if fits {
        ClearDeadlock();
        return true, 0, false, rest;
      }
      if toAbort >= |tasks| {
        return true, 0, true, rest;
      }
      v, fault, rest' := AbortNext(toAbort, rest);
      stop := fault;
    }

    /** The end of a deadlock. */
    method ClearDeadlock()
      modifies this
      ensures tasks == old(tasks) && original == old(original)
      ensures Abs() == old(Abs()).(deadlock := false)
    {
      deadlock := false;
    }

    /**
     * One round of deadlock handling past a failed re-check: the candidate, or the one after it
     * if it is no longer active, is aborted; a candidate past the last task is a fault.
     */
    method AbortNext(toAbort: nat, ghost rest: Resolution) returns (v: nat, fault: bool, ghost rest': Resolution)
      requires TasksDistinct() && deadlock && Stuck(Abs()) && !Recheck(Abs()) && toAbort < |tasks|
      requires rest == Resolve(Abs(), toAbort)
      modifies this, tasks
      ensures tasks == old(tasks) && original == old(original)
      ensures v == if old(Abs()).tasks[toAbort].Active() then toAbort else toAbort + 1
      ensures fault ==> Abs() == rest.run && rest.victims == [] && rest.fault
      ensures !fault ==> deadlock && v < |tasks| && Abs() == AbortTask(old(Abs()), v) && Stuck(Abs())
      ensures !fault ==> rest' == Resolve(Abs(), v + 1)
      ensures !fault ==> rest.run == rest'.run && rest.fault == rest'.fault && rest.victims == [v] + rest'.victims
    {
      v := toAbort;
      if tasks[v].complete || tasks[v].aborted {
        v := v + 1;
      }
      if v >= |tasks| {
        return v, true, rest;
      }
      fault := false;
      ghost var s := Abs();
      AbortStuck(s, v);
      assert tasks[v] in old(tasks);
      AbortVictim(v);
      rest' := Resolve(Abs(), v + 1);
      ResolveStep(s, toAbort, v, rest');
    }

    /** Every task is complete or aborted. */
    method AllFinished() returns (fin: bool)
      ensures fin == Finished(Abs().tasks)
    {
      fin := true;
      var i := 0;
      while i < |tasks|
        invariant i <= |tasks|
        invariant fin == forall j :: 0 <= j < i ==> tasks[j].aborted || tasks[j].complete
      {
        if !tasks[i].aborted && !tasks[i].complete {
          fin := false;
        }
        i := i + 1;
      }
    }

    /**
     * One cycle. Under FIFO the deadlock flag is set when every active task has waited, and
     * `handle_deadlock` runs; a resolution that runs out of candidates stops the run.
     */
    method CycleOnce(p: Policy) returns (victims: seq<nat>, stopped: bool)
      requires TasksDistinct() && Shaped(Abs()) && WaitersAtRequest(Abs())
      modifies this, tasks
      ensures tasks == old(tasks) && original == old(original)
      ensures var o := Cycle(p, old(Abs())); Abs() == o.run && victims == o.victims && stopped == o.Stopped?
    {
      ghost var s := Abs();
      victims, stopped := [], false;
      if p == Fifo {
        var w := AllWaitingNow();
        SetDeadlock(w);
        ghost var s1 := Abs();
        victims, stopped := HandleDeadlock();
        if stopped {
          return;
        }
        if w {
          ResolveStuck(s1, 0);
        }
      }
      RestOfCycle(p);
    }

    method SetDeadlock(w: bool)
      modifies this
      ensures tasks == old(tasks) && original == old(original)
      ensures Abs() == old(Abs()).(deadlock := w)
    {
      deadlock := w;
    }

    /**
     * One policy's run: round zero, then cycles until every task is complete or aborted. At most
     * `fuel` cycles run. The run starts from the state construction or `reset` builds, whose
     * deadlock flag is whatever the previous run left.
     */
    method ExecutePolicy(p: Policy, fuel: nat) returns (status: Status)
      requires TasksDistinct() && ScriptOk(Script(original), original.numTasks, |original.totals|)
      requires Abs() == Initial(original).(deadlock := deadlock)
      modifies this, tasks
      ensures tasks == old(tasks) && original == old(original)
      ensures var r := Iterate(CycleStep(p), Start(p, original).(deadlock := old(deadlock)), fuel);
        Abs() == r.run && status == r.status
    {
      InitiateAll(p);
      StartValid(p, original);
      ghost var target := Iterate(CycleStep(p), Abs(), fuel);
      var left := fuel;
      while true
        invariant tasks == old(tasks) && original == old(original)
        invariant Scripted(Abs()) && Valid(Abs()) && Iterate(CycleStep(p), Abs(), left) == target
        decreases left
      {
        if left == 0 {
          return OutOfCycles;
        }
        var stop: bool;
        stop, status, left := RunTurn(p, left, target);
        if stop {
          return;
        }
      }
    }

    /**
     * One turn of the cycle loop, `left` cycles still allowed: the cycle runs, and the loop ends on a
     * fault or once every task is finished. `target` is where the run from here ends.
     */
    method RunTurn(p: Policy, left: nat, ghost target: RunResult) returns (stop: bool, status: Status, left': nat)
      requires TasksDistinct() && left > 0 && Scripted(Abs()) && Valid(Abs())
      requires Iterate(CycleStep(p), Abs(), left) == target
      modifies this, tasks
      ensures tasks == old(tasks) && original == old(original)
      ensures stop ==> Abs() == target.run && status == target.status
      ensures !stop ==> left' < left && Scripted(Abs()) && Valid(Abs()) && Iterate(CycleStep(p), Abs(), left') == target
    {
      ghost var s := Abs();
      ValidShaped(s);
      StepValid(p, s);
      assert CycleStep(p)(s) == Cycle(p, s);
      var victims, stopped := CycleOnce(p);
      if stopped {
        IterateStops(CycleStep(p), s, left, Abs(), victims);
        return true, Faulted, left;
      }
      var fin := AllFinished();
      if fin {
        IterateEnds(CycleStep(p), s, left, Abs(), victims);
        return true, Done, left;
      }
      stop, status, left' := false, OutOfCycles, left - 1;
      IterateGoesOn(CycleStep(p), s, left, left', Abs(), victims);
    }

    /** `gather_results`: time taken and time waiting of every task, in task order. */
    method Gather() returns (results: seq<int>)
      ensures results == GatherResults(Abs().tasks)
    {
      results := [];
      var i := 0;
      while i < |tasks|
        invariant i <= |tasks| && results == GatherResults(Abs().tasks[..i])
      {
        assert Abs().tasks[..i + 1][..i] == Abs().tasks[..i];
        results := results + [tasks[i].timeTaken, tasks[i].waitingTime];
        i := i + 1;
      }
      assert Abs().tasks[..i] == Abs().tasks;
    }

    /**
     * `execute`: the FIFO run and its results, `reset`, then the Banker's run and its results.
     * When the FIFO run does not end on a fault the Banker's run starts exactly as the FIFO run
     * did; otherwise it starts with the deadlock flag still set, which no Banker's cycle reads.
     */
    method ExecuteBoth(fuel: nat) returns (fifo: seq<int>, bankers: seq<int>)
      requires TasksDistinct() && ScriptOk(Script(original), original.numTasks, |original.totals|)
      requires Abs() == Initial(original)
      modifies this, tasks
      ensures original == old(original)
      ensures var r := Execute(Fifo, original, fuel); fifo == GatherResults(r.run.tasks)
      ensures var r := Execute(Fifo, original, fuel);
        bankers == GatherResults(Iterate(CycleStep(Bankers), Start(Bankers, original).(deadlock := r.run.deadlock), fuel).run.tasks)
      ensures Execute(Fifo, original, fuel).status != Faulted ==>
        bankers == GatherResults(Execute(Bankers, original, fuel).run.tasks)
    {
      fifo := FifoPhase(fuel);
      ghost var d := deadlock;
      bankers := BankersPhase(fuel);
      assert !d ==> Start(Bankers, original).(deadlock := d) == Start(Bankers, original);
    }

    /** The FIFO half of `execute`: the run and its results. A run that does not fault leaves the flag clear. */
    method FifoPhase(fuel: nat) returns (fifo: seq<int>)
      requires TasksDistinct() && ScriptOk(Script(original), original.numTasks, |original.totals|)
      requires Abs() == Initial(original)
      modifies this, tasks
      ensures tasks == old(tasks) && original == old(original)
      ensures var r := Execute(Fifo, original, fuel);
        fifo == GatherResults(r.run.tasks) && deadlock == r.run.deadlock && (r.status != Faulted ==> !deadlock)
    {
      assert Start(Fifo, original).(deadlock := false) == Start(Fifo, original);
      var _ := ExecutePolicy(Fifo, fuel);
      fifo := Gather();
      FifoEndsClear(original, fuel);
    }

    /** The Banker's half of `execute`: `reset`, the run and its results. */
    method BankersPhase(fuel: nat) returns (bankers: seq<int>)
      requires ScriptOk(Script(original), original.numTasks, |original.totals|)
      modifies this, tasks
      ensures original == old(original)
      ensures bankers == GatherResults(Iterate(CycleStep(Bankers), Start(Bankers, original).(deadlock := old(deadlock)), fuel).run.tasks)
    {
      Reset();
      var _ := ExecutePolicy(Bankers, fuel);
      bankers := Gather();
    }

    /** Rebuilding the state from the stored input. The deadlock flag is left as it was. */
    method Reset()
      modifies this
      ensures TasksDistinct() && original == old(original)
      ensures Abs() == Initial(original).(deadlock := old(deadlock))
      ensures forall i :: 0 <= i < |tasks| ==> fresh(tasks[i])
    {
      var ts := MakeTasks(original.numTasks);
      var ins, ds := MakeScript(original.lines);
      tasks := ts;
      total, current := original.totals, original.totals;
      instrs, delays := ins, ds;
      cycle := 1;
      assert Script(Input(0, [], original.lines)) == Script(original);
      assert RecsOf(tasks) == Initial(original).tasks;
    }
  }
}
