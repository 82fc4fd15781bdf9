/**
 * The invariant that keeps every lookup of the engine defined from cycle to cycle, and its
 * preservation by each step of a cycle.
 *
 * The script condition asks that each task's last instruction be a terminate and that every
 * request and release name a type the task initiates. It is sufficient, not necessary: the
 * manager also runs some scripts that break it.
 */
module Invariant {
  import opened Instructions
  import opened Tasks
  import opened Ordering
  import opened Engine

  /** Every initiate names an existing task and type; every task ends with a terminate; requests and releases name initiated types. */
  predicate ScriptOk(instrs: seq<Instruction>, n: nat, m: nat) {
    && InitiatesOk(instrs, n, m)
    && (forall q :: 0 <= q < |instrs| && instrs[q].kind in {Request, Release} && 1 <= instrs[q].task <= n ==>
          instrs[q].resType in InitiatedTypes(instrs, instrs[q].task))
    && (forall t :: 1 <= t <= n ==> LastIsTerminate(instrs, t))
  }

  /** The script condition for the state's script, tasks and resource types; no step changes any of the three. */
  predicate Scripted(s: State) {
    ScriptOk(s.instrs, |s.tasks|, |s.total|)
  }

  /**
   * Task `i` while active: it holds an entry for each of its initiates, its cursor is on one of
   * its instructions, and if it has waited it waits at a request.
   */
  predicate TaskInv(instrs: seq<Instruction>, m: nat, t: TaskRec, i: nat) {
    && TypesOk(t, m)
    && (t.Active() ==>
          && t.resourceTypes == InitiatedTypes(instrs, i + 1)
          && t.currInstr < Count(instrs, i + 1)
          && (t.currWait > 0 ==> instrs[Current(instrs, t, i)].kind == Request))
  }

  predicate Valid(s: State) {
    && |s.current| == |s.total| && |s.delays| == |s.instrs|
    && forall i :: 0 <= i < |s.tasks| ==> TaskInv(s.instrs, |s.total|, s.tasks[i], i)
  }

  /** The invariant makes every lookup of a cycle succeed. */
  lemma ValidShaped(s: State)
    requires Scripted(s) && Valid(s)
    ensures Shaped(s) && WaitersAtRequest(s)
  {
    forall i | 0 <= i < |s.tasks| ensures Ready(s.instrs, |s.total|, s.tasks[i], i) {
      var t := s.tasks[i];
      if t.Active() {
        var q := Current(s.instrs, t, i);
        assert s.instrs[q].task == i + 1;
      }
    }
  }

  /** Changing one task to one that keeps the invariant, and the pool or countdowns in place, keeps the state valid. */
  lemma TaskSwap(s: State, i: nat, t': TaskRec, current': seq<int>, delays': seq<int>)
    requires Valid(s) && i < |s.tasks| && TaskInv(s.instrs, |s.total|, t', i)
    requires |current'| == |s.current| && |delays'| == |s.delays|
    ensures Valid(s.(tasks := s.tasks[i := t'], current := current', delays := delays'))
  {
  }

  /** A task that is no longer active keeps the invariant as long as its types stay in range. */
  lemma InactiveInv(instrs: seq<Instruction>, m: nat, t: TaskRec, i: nat)
    requires TypesOk(t, m) && !t.Active()
    ensures TaskInv(instrs, m, t, i)
  {
  }

  /** A task that moves past an instruction other than its terminate lands on its next instruction. */
  lemma AdvanceInv(instrs: seq<Instruction>, m: nat, t: TaskRec, t': TaskRec, i: nat)
    requires LastIsTerminate(instrs, i + 1) && TaskInv(instrs, m, t, i) && t.Active()
    requires instrs[Current(instrs, t, i)].kind != Terminate
    requires t' == t.(currInstr := t'.currInstr, currWait := 0, timeTaken := t'.timeTaken,
                      resourcesHeld := t'.resourcesHeld)
    requires t'.currInstr == t.currInstr + 1 && |t'.resourcesHeld| == |t.resourcesHeld|
    ensures TaskInv(instrs, m, t', i)
  {
    NotLast(instrs, i + 1, t.currInstr);
  }

  // ---------------------------------------------------------------------------------------------
  // The pass over the tasks.

  /**
   * Pending request `q` as the pass queued it: a request that is the current instruction of its
   * still-active task, of a type the task holds an entry for, and under Banker's within the
   * task's remaining claim on that entry.
   */
  predicate Queued(p: Policy, s: State, q: nat) {
    && q < |s.instrs| && 1 <= s.instrs[q].task <= |s.tasks|
    && var i := s.instrs[q].task - 1;
       var t := s.tasks[i];
       && t.Active() && s.instrs[q].kind == Request
       && TypesOk(t, |s.total|) && s.instrs[q].resType in t.resourceTypes
       && t.currInstr < Count(s.instrs, i + 1) && Current(s.instrs, t, i) == q
       && (p == Bankers ==>
             var e := IndexOf(t.resourceTypes, s.instrs[q].resType);
             s.instrs[q].numberRequested <= t.initialClaims[e] - t.resourcesHeld[e])
  }

  /** Each pending request belongs to a later task than the one before it. */
  predicate TasksAscending(instrs: seq<Instruction>, reqs: seq<nat>) {
    forall a :: 0 < a < |reqs| && reqs[a - 1] < |instrs| && reqs[a] < |instrs| ==>
      instrs[reqs[a - 1]].task < instrs[reqs[a]].task
  }

  /** What the pass keeps after the first `i` tasks. */
  predicate PassOk(p: Policy, g: Stage, i: nat) {
    && Valid(g.run)
    && (forall q :: q in g.pend.reqs ==> Queued(p, g.run, q) && g.run.instrs[q].task <= i)
    && TasksAscending(g.run.instrs, g.pend.reqs)
  }

  /** Changing task `i` keeps the requests queued by the tasks before it. */
  lemma QueuedKept(p: Policy, s: State, reqs: seq<nat>, i: nat, t': TaskRec)
    requires i < |s.tasks|
    requires forall q :: q in reqs ==> Queued(p, s, q) && s.instrs[q].task <= i
    ensures forall q :: q in reqs ==> Queued(p, s.(tasks := s.tasks[i := t']), q) && s.instrs[q].task <= i
  {
    forall q | q in reqs ensures Queued(p, s.(tasks := s.tasks[i := t']), q) {
      assert Queued(p, s, q);
    }
  }

  /** A step that changes task `i` (and perhaps the countdowns) but queues no request. */
  lemma StepKeeps(p: Policy, g: Stage, i: nat, t': TaskRec, delays': seq<int>, h: Stage)
    requires PassOk(p, g, i) && i < |g.run.tasks| && |delays'| == |g.run.delays|
    requires TaskInv(g.run.instrs, |g.run.total|, t', i)
    requires h.run == g.run.(tasks := g.run.tasks[i := t'], delays := delays') && h.pend.reqs == g.pend.reqs
    ensures PassOk(p, h, i + 1)
  {
    var s, pend := g.run, g.pend;
    TaskSwap(s, i, t', s.current, delays');
    assert h.run == s.(tasks := s.tasks[i := t'], current := s.current, delays := delays');
    QueuedKept(p, s, pend.reqs, i, t');
  }

  /** The step that queues the current request of task `i`. */
  lemma QueueKeeps(p: Policy, g: Stage, i: nat, q: nat, h: Stage)
    requires PassOk(p, g, i) && i < |g.run.tasks| && Queued(p, g.run, q) && g.run.instrs[q].task == i + 1
    requires h.run == g.run && h.pend.reqs == g.pend.reqs + [q]
    ensures PassOk(p, h, i + 1)
  {
  }

  /** The step of task `i` keeps the invariant and queues its request, if any, behind the earlier tasks'. */
  lemma DispatchTaskValid(p: Policy, g: Stage, i: nat, h: Stage)
    requires Scripted(g.run) && PassOk(p, g, i) && i < |g.run.tasks|
    requires Ready(g.run.instrs, |g.run.total|, g.run.tasks[i], i) && h == DispatchTask(p, g.run, g.pend, i)
    ensures PassOk(p, h, i + 1)
  {
    var s, pend := g.run, g.pend;
    var t := s.tasks[i];
    if !t.Active() {
      StepKeeps(p, g, i, t, s.delays, h);
    } else {
      var q := Current(s.instrs, t, i);
      var ins := s.instrs[q];
      if s.delays[q] != 0 {
        StepKeeps(p, g, i, AfterDelay(t), s.delays[q := s.delays[q] - 1], h);
      } else if ins.kind == Request {
        var e := IndexOf(t.resourceTypes, ins.resType);
        if p == Fifo || ins.numberRequested <= t.initialClaims[e] - t.resourcesHeld[e] {
          QueueKeeps(p, g, i, q, h);
        } else {
          StepKeeps(p, g, i, AfterAbort(t), s.delays, h);
        }
      } else if ins.kind == Release {
        var t' := AfterRelease(t, ins.resType, ins.numberReleased);
        AdvanceInv(s.instrs, |s.total|, t, t', i);
        StepKeeps(p, g, i, t', s.delays, h);
      } else if ins.kind == Terminate {
        StepKeeps(p, g, i, AfterTerminate(t), s.delays, h);
      } else {
        StepKeeps(p, g, i, t, s.delays, h);
      }
    }
  }

  /** The pass over the first `i` tasks keeps the invariant and queues requests in task order. */
  lemma {:induction false} DispatchUpToValid(p: Policy, s: State, i: nat)
    requires Scripted(s) && Valid(s) && Shaped(s) && i <= |s.tasks|
    ensures PassOk(p, DispatchUpTo(p, s, i), i)
  {
    if i > 0 {
      DispatchUpToValid(p, s, i - 1);
      var g := DispatchUpTo(p, s, i - 1);
      NextReady(s, g.run, i - 1);
      DispatchTaskValid(p, g, i - 1, DispatchUpTo(p, s, i));
    }
  }

  /** Requests of ascending tasks are pairwise requests of different tasks. */
  lemma {:induction false} AscendingPairs(instrs: seq<Instruction>, reqs: seq<nat>, a: nat, b: nat)
    requires TasksAscending(instrs, reqs) && Below(reqs, |instrs|)
    requires a < b < |reqs|
    ensures instrs[reqs[a]].task < instrs[reqs[b]].task
    decreases b - a
  {
    if a + 1 < b {
      AscendingPairs(instrs, reqs, a, b - 1);
    }
  }

  /** Requests of ascending tasks are distinct. */
  lemma AscendingDistinct(instrs: seq<Instruction>, reqs: seq<nat>)
    requires TasksAscending(instrs, reqs) && (forall q :: q in reqs ==> q < |instrs|)
    ensures Distinct(reqs)
  {
    assert Below(reqs, |instrs|) by {
      forall a | 0 <= a < |reqs| ensures reqs[a] < |instrs| {
        assert reqs[a] in reqs;
      }
    }
    forall a, b | 0 <= a < b < |reqs| ensures reqs[a] != reqs[b] {
      AscendingPairs(instrs, reqs, a, b);
    }
  }

  // ---------------------------------------------------------------------------------------------
  // Admission.

  /** A grant moves the task past its request. */
  lemma GrantValid(p: Policy, s: State, q: nat)
    requires Scripted(s) && Valid(s) && Queued(p, s, q)
    ensures Valid(Grant(s, q))
  {
    var i := s.instrs[q].task - 1;
    var t := s.tasks[i];
    var ins := s.instrs[q];
    var t' := AfterGranted(t, ins.resType, ins.numberRequested);
    GrantedHeld(t, ins.resType, ins.numberRequested, 0);
    AdvanceInv(s.instrs, |s.total|, t, t', i);
    TaskSwap(s, i, t', Grant(s, q).current, s.delays);
  }

  /** A denied task stays at its request, now having waited. */
  lemma DenyValid(p: Policy, s: State, q: nat)
    requires Valid(s) && Queued(p, s, q)
    ensures Valid(Deny(s, q))
  {
    var i := s.instrs[q].task - 1;
    var t' := AfterWait(s.tasks[i]);
    assert TaskInv(s.instrs, |s.total|, t', i);
    TaskSwap(s, i, t', s.current, s.delays);
    assert Deny(s, q) == s.(tasks := s.tasks[i := t'], current := s.current, delays := s.delays);
  }

  /** Changing the task of pending request `q` keeps the standing of the other pending requests. */
  lemma OthersQueued(p: Policy, s: State, q: nat, rest: seq<nat>, s': State)
    requires Queued(p, s, q) && forall q' :: q' in rest ==> Queued(p, s, q') && q' != q
    requires s' == s.(tasks := s'.tasks, current := s'.current) && |s'.tasks| == |s.tasks|
    requires forall j :: 0 <= j < |s.tasks| && j != s.instrs[q].task - 1 ==> s'.tasks[j] == s.tasks[j]
    ensures forall q' :: q' in rest ==> Queued(p, s', q')
  {
    forall q' | q' in rest ensures Queued(p, s', q') {
      assert Queued(p, s, q');
    }
  }

  /** Admitting pending request `q` keeps the invariant and the standing of every other pending request. */
  lemma AdmitValid(p: Policy, s: State, q: nat, rest: seq<nat>)
    requires Scripted(s) && Valid(s) && Queued(p, s, q)
    requires forall q' :: q' in rest ==> Queued(p, s, q') && q' != q
    ensures Valid(Admit(p, s, q))
    ensures forall q' :: q' in rest ==> Queued(p, Admit(p, s, q), q')
  {
    if Check(p, s, q) {
      GrantValid(p, s, q);
      OthersQueued(p, s, q, rest, Grant(s, q));
    } else {
      DenyValid(p, s, q);
      OthersQueued(p, s, q, rest, Deny(s, q));
    }
  }

  /** Admitting distinct pending requests one after another keeps the invariant. */
  lemma {:induction false} AdmitAllValid(p: Policy, s: State, reqs: seq<nat>)
    requires Scripted(s) && Valid(s) && Distinct(reqs) && forall q :: q in reqs ==> Queued(p, s, q)
    ensures forall q :: q in reqs ==> ReqTyped(s, q)
    ensures Valid(AdmitAll(p, s, reqs))
    decreases |reqs|
  {
    if reqs != [] {
      var rest := reqs[1..];
      DistinctTail(reqs);
      AdmitValid(p, s, reqs[0], rest);
      AdmitAllValid(p, Admit(p, s, reqs[0]), rest);
    }
  }

  /** The requests after the first of distinct requests are distinct and differ from the first. */
  lemma DistinctTail(reqs: seq<nat>)
    requires Distinct(reqs) && reqs != []
    ensures Distinct(reqs[1..]) && forall q' :: q' in reqs[1..] ==> q' != reqs[0]
  {
    var rest := reqs[1..];
    forall q' | q' in rest ensures q' != reqs[0] {
      var k :| 0 <= k < |rest| && rest[k] == q';
      assert reqs[k + 1] == q';
    }
    forall a, b | 0 <= a < b < |rest| ensures rest[a] != rest[b] {
      assert rest[a] == reqs[a + 1] && rest[b] == reqs[b + 1];
    }
  }

  // ---------------------------------------------------------------------------------------------
  // Whole cycles.

  /** The pass, the ordering, admission and credit keep the invariant. */
  lemma CycleRestValid(p: Policy, s: State)
    requires Scripted(s) && Valid(s)
    ensures Shaped(s) && Valid(CycleRest(p, s)) && Scripted(CycleRest(p, s))
  {
    ValidShaped(s);
    DispatchUpToValid(p, s, |s.tasks|);
    DispatchUpToShape(p, s, |s.tasks|);
    var g := Dispatch(p, s);
    var reqs := g.pend.reqs;
    AscendingDistinct(g.run.instrs, reqs);
    var o := Order(Keys(g.run, reqs));
    PermuteDistinct(reqs, o);
    var sorted := SortedRequests(g.run, reqs);
    assert sorted == Permute(reqs, o);
    assert Scripted(g.run);
    AdmitAllValid(p, g.run, sorted);
  }

  /** A task that is complete or aborted is left as it is by the pass over the first `k` tasks. */
  lemma {:induction false} DispatchUpToInert(p: Policy, s: State, i: nat, k: nat)
    requires Shaped(s) && i < |s.tasks| && k <= |s.tasks| && !s.tasks[i].Active()
    ensures DispatchUpTo(p, s, k).run.tasks[i] == s.tasks[i]
  {
    if k > 0 && k - 1 != i {
      DispatchUpToInert(p, s, i, k - 1);
    }
  }

  /** Admission changes only the tasks of the requests it admits. */
  lemma {:induction false} AdmitAllOthers(p: Policy, s: State, reqs: seq<nat>, i: nat)
    requires |s.current| == |s.total| && i < |s.tasks|
    requires forall q :: q in reqs ==> ReqTyped(s, q) && s.instrs[q].task != i + 1
    ensures AdmitAll(p, s, reqs).tasks[i] == s.tasks[i]
    decreases |reqs|
  {
    if reqs != [] {
      var s1 := Admit(p, s, reqs[0]);
      assert s1.tasks[i] == s.tasks[i];
      forall q | q in reqs[1..] ensures ReqTyped(s1, q) && s1.instrs[q].task != i + 1 {
        assert q in reqs;
      }
      AdmitAllOthers(p, s1, reqs[1..], i);
    }
  }

  /**
   * A task that is complete or aborted stays exactly as it is through the pass, admission and
   * credit: it never moves its cursor or its clock.
   */
  lemma CycleRestInert(p: Policy, s: State, i: nat)
    requires Scripted(s) && Valid(s) && i < |s.tasks| && !s.tasks[i].Active()
    ensures Shaped(s) && CycleRest(p, s).tasks[i] == s.tasks[i]
  {
    ValidShaped(s);
    DispatchUpToValid(p, s, |s.tasks|);
    DispatchUpToShape(p, s, |s.tasks|);
    DispatchUpToInert(p, s, i, |s.tasks|);
    var g := Dispatch(p, s);
    var sorted := SortedRequests(g.run, g.pend.reqs);
    forall q | q in sorted ensures ReqTyped(g.run, q) && g.run.instrs[q].task != i + 1 {
      assert Queued(p, g.run, q);
    }
    AdmitAllOthers(p, g.run, sorted, i);
  }

  /** Aborting a task keeps the invariant. */
  lemma AbortValid(s: State, v: nat)
    requires Shaped(s) && Valid(s) && v < |s.tasks|
    ensures Valid(AbortTask(s, v))
  {
    var t' := AfterAbort(s.tasks[v]);
    InactiveInv(s.instrs, |s.total|, t', v);
    TaskSwap(s, v, t', AbortTask(s, v).current, s.delays);
    assert AbortTask(s, v) == s.(tasks := s.tasks[v := t'], current := AbortTask(s, v).current, delays := s.delays);
  }

  /** Deadlock resolution keeps the invariant. */
  lemma {:induction false} ResolveValid(s: State, toAbort: nat, r: Resolution)
    requires Stuck(s) && Valid(s) && r == Resolve(s, toAbort)
    ensures Valid(r.run)
    decreases |s.tasks| - toAbort
  {
    if !Recheck(s) && toAbort < |s.tasks| {
      var v := if !s.tasks[toAbort].Active() then toAbort + 1 else toAbort;
      if v < |s.tasks| {
        var s' := AbortTask(s, v);
        AbortStuck(s, v);
        AbortValid(s, v);
        var r' := Resolve(s', v + 1);
        ResolveStep(s, toAbort, v, r');
        ResolveValid(s', v + 1, r');
      }
    }
  }

  /** A cycle of either policy keeps the invariant, so the next cycle's lookups succeed too. */
  lemma CycleValid(p: Policy, s: State)
    requires Scripted(s) && Valid(s)
    ensures Shaped(s) && WaitersAtRequest(s)
    ensures Valid(Cycle(p, s).run) && Scripted(Cycle(p, s).run)
  {
    ValidShaped(s);
    if p == Bankers {
      CycleRestValid(p, s);
    } else {
      var s1 := s.(deadlock := AllWaiting(s.tasks));
      assert Valid(s1) && Scripted(s1);
      if !s1.deadlock {
        CycleRestValid(p, s1);
      } else {
        ValidShaped(s1);
        var r := Resolve(s1, 0);
        ResolveValid(s1, 0, r);
        assert Scripted(r.run);
        if !r.fault {
          CycleRestValid(p, r.run);
        }
      }
    }
  }
}
