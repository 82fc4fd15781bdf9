/**
 * Conservation of units: at the end of every cycle the pool of each resource type plus what the
 * tasks that are not aborted hold of it is the type's total. Within a cycle, units released or
 * given up by a Banker's abort are in flight until the end-of-cycle credit.
 *
 * Aborting a task that is already aborted credits the units it still lists a second time, so
 * FIFO resolution keeps the balance only when none of its victims was aborted before.
 */
module Conservation {
  import opened Instructions
  import opened Tasks
  import opened Ordering
  import opened Engine
  import opened Invariant
  import opened Deadlock
  import opened Startup

  predicate AllWellFormed(ts: seq<TaskRec>) {
    forall i :: 0 <= i < |ts| ==> ts[i].WellFormed()
  }

  /** What task `t` counts for in the balance of type `r`: nothing once aborted. */
  function Contrib(t: TaskRec, r: int): int
    requires t.WellFormed()
  {
    if t.aborted then 0 else HeldOf(t, r)
  }

  /** Units of type `r` held by the tasks of `ts` that are not aborted. */
  function HeldBy(ts: seq<TaskRec>, r: int): int
    requires AllWellFormed(ts)
  {
    if ts == [] then 0 else HeldBy(ts[..|ts| - 1], r) + Contrib(ts[|ts| - 1], r)
  }

  /** Replacing one task changes the units held by `ts` by the change in that task's share. */
  lemma {:induction false} HeldByUpdate(ts: seq<TaskRec>, i: nat, t': TaskRec, r: int)
    requires AllWellFormed(ts) && i < |ts| && t'.WellFormed()
    ensures AllWellFormed(ts[i := t'])
    ensures HeldBy(ts[i := t'], r) == HeldBy(ts, r) - Contrib(ts[i], r) + Contrib(t', r)
    decreases |ts|
  {
    var n := |ts| - 1;
    var ts' := ts[i := t'];
    if i == n {
      assert ts'[..n] == ts[..n];
    } else {
      assert ts'[..n] == ts[..n][i := t'];
      HeldByUpdate(ts[..n], i, t', r);
    }
  }

  /** Tasks that hold nothing hold nothing of any type. */
  lemma {:induction false} HeldByNothing(ts: seq<TaskRec>, r: int)
    requires AllWellFormed(ts)
    requires forall i, e :: 0 <= i < |ts| && 0 <= e < |ts[i].resourcesHeld| ==> ts[i].resourcesHeld[e] == 0
    ensures HeldBy(ts, r) == 0
    decreases |ts|
  {
    if ts != [] {
      var n := |ts| - 1;
      HeldByNothing(ts[..n], r);
      NothingHeld(ts[n].resourceTypes, ts[n].resourcesHeld, r);
    }
  }

  /** The units listed by two parallel pairs of lists, one after the other. */
  lemma {:induction false} SumHeldAppend(types: seq<int>, held: seq<int>, types': seq<int>, held': seq<int>, r: int)
    requires |held| == |types| && |held'| == |types'|
    ensures SumHeld(types + types', held + held', r) == SumHeld(types, held, r) + SumHeld(types', held', r)
    decreases |types'|
  {
    if types' == [] {
      assert types + types' == types && held + held' == held;
    } else {
      var n := |types'| - 1;
      assert (types + types')[..|types| + n] == types + types'[..n];
      assert (held + held')[..|held| + n] == held + held'[..n];
      SumHeldAppend(types, held, types'[..n], held'[..n], r);
    }
  }

  /** The units of type `r` queued for the end-of-cycle credit. */
  function InFlight(pend: Pending, r: int): int
    requires |pend.relAmounts| == |pend.relTypes|
  {
    SumHeld(pend.relTypes, pend.relAmounts, r)
  }

  /** For every type, the pool, the holdings of the tasks not aborted and the units in flight make up the total. */
  predicate Balanced(s: State, pend: Pending) {
    && |s.current| == |s.total| && AllWellFormed(s.tasks) && |pend.relAmounts| == |pend.relTypes|
    && forall x :: 0 <= x < |s.total| ==> s.current[x] + HeldBy(s.tasks, x + 1) + InFlight(pend, x + 1) == s.total[x]
  }

  /** For every type, the pool and the holdings of the tasks not aborted make up the total. */
  predicate Conserved(s: State) {
    && |s.current| == |s.total| && AllWellFormed(s.tasks)
    && forall x :: 0 <= x < |s.total| ==> s.current[x] + HeldBy(s.tasks, x + 1) == s.total[x]
  }

  lemma ConservedBalanced(s: State)
    requires Conserved(s)
    ensures Balanced(s, Pending([], [], []))
  {
  }

  // ---------------------------------------------------------------------------------------------
  // The pass over the tasks.

  /** A step that replaces task `i` and moves exactly its change of share into or out of flight keeps the balance. */
  lemma SwapBalanced(s: State, pend: Pending, i: nat, t': TaskRec, delays': seq<int>, pend': Pending)
    requires Balanced(s, pend) && i < |s.tasks| && t'.WellFormed() && |pend'.relAmounts| == |pend'.relTypes|
    requires forall r :: 1 <= r <= |s.total| ==>
      Contrib(t', r) + InFlight(pend', r) == Contrib(s.tasks[i], r) + InFlight(pend, r)
    ensures Balanced(s.(tasks := s.tasks[i := t'], delays := delays'), pend')
  {
    forall x | 0 <= x < |s.total|
      ensures s.current[x] + HeldBy(s.tasks[i := t'], x + 1) + InFlight(pend', x + 1) == s.total[x]
    {
      HeldByUpdate(s.tasks, i, t', x + 1);
    }
    HeldByUpdate(s.tasks, i, t', 0);
  }

  /** Task `i`'s step of the pass keeps the balance, counting what it queues for the credit as in flight. */
  lemma DispatchTaskBalanced(p: Policy, g: Stage, i: nat, h: Stage)
    requires Balanced(g.run, g.pend) && |g.run.delays| == |g.run.instrs| && i < |g.run.tasks|
    requires Ready(g.run.instrs, |g.run.total|, g.run.tasks[i], i) && h == DispatchTask(p, g.run, g.pend, i)
    ensures Balanced(h.run, h.pend)
  {
    var s, pend := g.run, g.pend;
    var t := s.tasks[i];
    if t.Active() {
      var q := Current(s.instrs, t, i);
      var ins := s.instrs[q];
      if s.delays[q] != 0 {
        SwapBalanced(s, pend, i, AfterDelay(t), s.delays[q := s.delays[q] - 1], pend);
      } else if ins.kind == Request {
        var e := IndexOf(t.resourceTypes, ins.resType);
        if !(p == Fifo || ins.numberRequested <= t.initialClaims[e] - t.resourcesHeld[e]) {
          var pend' := h.pend;
          forall r | 1 <= r <= |s.total|
            ensures Contrib(AfterAbort(t), r) + InFlight(pend', r) == Contrib(t, r) + InFlight(pend, r)
          {
            SumHeldAppend(pend.relTypes, pend.relAmounts, t.resourceTypes, t.resourcesHeld, r);
          }
          SwapBalanced(s, pend, i, AfterAbort(t), s.delays, pend');
          assert h.run == s.(tasks := s.tasks[i := AfterAbort(t)], delays := s.delays);
        }
      } else if ins.kind == Release {
        var t' := AfterRelease(t, ins.resType, ins.numberReleased);
        var pend' := h.pend;
        forall r | 1 <= r <= |s.total|
          ensures Contrib(t', r) + InFlight(pend', r) == Contrib(t, r) + InFlight(pend, r)
        {
          ReleasedHeld(t, ins.resType, ins.numberReleased, r);
          SumHeldAppend(pend.relTypes, pend.relAmounts, [ins.resType], [ins.numberReleased], r);
          assert SumHeld([ins.resType], [ins.numberReleased], r) == (if ins.resType == r then ins.numberReleased else 0);
        }
        ReleasedHeld(t, ins.resType, ins.numberReleased, 0);
        SwapBalanced(s, pend, i, t', s.delays, pend');
        assert h.run == s.(tasks := s.tasks[i := t'], delays := s.delays);
      } else if ins.kind == Terminate {
        SwapBalanced(s, pend, i, AfterTerminate(t), s.delays, pend);
        assert h.run == s.(tasks := s.tasks[i := AfterTerminate(t)], delays := s.delays);
      }
    }
  }

  lemma DispatchStepBalanced(p: Policy, s: State, i: nat, g0: Stage, g: Stage)
    requires Shaped(s) && 0 < i <= |s.tasks|
    requires g0 == DispatchUpTo(p, s, i - 1) && g == DispatchUpTo(p, s, i) && Balanced(g0.run, g0.pend)
    ensures Balanced(g.run, g.pend)
  {
    NextReady(s, g0.run, i - 1);
    DispatchTaskBalanced(p, g0, i - 1, g);
  }

  /** The pass over the first `i` tasks keeps the balance, counting queued credits as in flight. */
  lemma {:induction false} DispatchUpToBalanced(p: Policy, s: State, i: nat)
    requires Shaped(s) && Conserved(s) && i <= |s.tasks|
    ensures Balanced(DispatchUpTo(p, s, i).run, DispatchUpTo(p, s, i).pend)
  {
    if i == 0 {
      ConservedBalanced(s);
    } else {
      DispatchUpToBalanced(p, s, i - 1);
      DispatchStepBalanced(p, s, i, DispatchUpTo(p, s, i - 1), DispatchUpTo(p, s, i));
    }
  }

  // ---------------------------------------------------------------------------------------------
  // Admission and credit.

  /** A grant moves units from the pool to an active task. */
  lemma GrantBalanced(p: Policy, s: State, pend: Pending, q: nat)
    requires Balanced(s, pend) && Queued(p, s, q)
    ensures Balanced(Grant(s, q), pend)
  {
    var i := s.instrs[q].task - 1;
    var t := s.tasks[i];
    var ins := s.instrs[q];
    var t' := AfterGranted(t, ins.resType, ins.numberRequested);
    var s' := Grant(s, q);
    forall x | 0 <= x < |s.total|
      ensures s'.current[x] + HeldBy(s'.tasks, x + 1) + InFlight(pend, x + 1) == s.total[x]
    {
      GrantedHeld(t, ins.resType, ins.numberRequested, x + 1);
      HeldByUpdate(s.tasks, i, t', x + 1);
    }
    GrantedHeld(t, ins.resType, ins.numberRequested, 0);
    HeldByUpdate(s.tasks, i, t', 0);
  }

  /** A denial changes no holding. */
  lemma DenyBalanced(p: Policy, s: State, pend: Pending, q: nat)
    requires Balanced(s, pend) && Queued(p, s, q)
    ensures Balanced(Deny(s, q), pend)
  {
    var i := s.instrs[q].task - 1;
    var t' := AfterWait(s.tasks[i]);
    var s' := Deny(s, q);
    assert s'.tasks == s.tasks[i := t'];
    forall x | 0 <= x < |s.total|
      ensures s'.current[x] + HeldBy(s'.tasks, x + 1) + InFlight(pend, x + 1) == s.total[x]
    {
      HeldByUpdate(s.tasks, i, t', x + 1);
    }
    HeldByUpdate(s.tasks, i, t', 0);
  }

  /** Admitting distinct pending requests one after another keeps the balance. */
  lemma {:induction false} AdmitAllBalanced(p: Policy, s: State, pend: Pending, reqs: seq<nat>)
    requires Balanced(s, pend) && Distinct(reqs) && forall q :: q in reqs ==> Queued(p, s, q)
    ensures forall q :: q in reqs ==> ReqTyped(s, q)
    ensures Balanced(AdmitAll(p, s, reqs), pend)
    decreases |reqs|
  {
    if reqs != [] {
      var q, rest := reqs[0], reqs[1..];
      DistinctTail(reqs);
      assert Queued(p, s, q) by { assert q in reqs; }
      var s1 := Admit(p, s, q);
      if Check(p, s, q) {
        GrantBalanced(p, s, pend, q);
      } else {
        DenyBalanced(p, s, pend, q);
      }
      OthersQueued(p, s, q, rest, s1);
      AdmitAllBalanced(p, s1, pend, rest);
    }
  }

  /** The end-of-cycle credit lands every unit in flight in the pool. */
  lemma CreditConserves(s: State, pend: Pending)
    requires Balanced(s, pend) && ReleasesOk(pend, |s.total|)
    ensures Conserved(s.(current := Credit(s.current, pend.relTypes, pend.relAmounts)))
  {
  }

  /** The pass, ordering, admission and credit of a cycle keep the pool and the holdings in balance. */
  lemma CycleRestConserves(p: Policy, s: State)
    requires Scripted(s) && Valid(s) && Conserved(s)
    ensures Shaped(s) && Conserved(CycleRest(p, s))
  {
    ValidShaped(s);
    DispatchUpToValid(p, s, |s.tasks|);
    DispatchUpToShape(p, s, |s.tasks|);
    DispatchUpToBalanced(p, s, |s.tasks|);
    var g := Dispatch(p, s);
    var reqs := g.pend.reqs;
    AscendingDistinct(g.run.instrs, reqs);
    var o := Order(Keys(g.run, reqs));
    PermuteDistinct(reqs, o);
    var sorted := SortedRequests(g.run, reqs);
    assert sorted == Permute(reqs, o);
    AdmitAllBalanced(p, g.run, g.pend, sorted);
    var a := AdmitAll(p, g.run, sorted);
    CreditConserves(a, g.pend);
  }

  // ---------------------------------------------------------------------------------------------
  // FIFO deadlock resolution.

  /** Aborting a task that is not aborted yet moves everything it holds back to the pool at once. */
  lemma AbortConserves(s: State, v: nat)
    requires Shaped(s) && Conserved(s) && v < |s.tasks| && !s.tasks[v].aborted
    ensures Conserved(AbortTask(s, v))
  {
    var t := s.tasks[v];
    var s' := AbortTask(s, v);
    assert s'.tasks == s.tasks[v := AfterAbort(t)];
    forall x | 0 <= x < |s.total| ensures s'.current[x] + HeldBy(s'.tasks, x + 1) == s.total[x] {
      HeldByUpdate(s.tasks, v, AfterAbort(t), x + 1);
    }
    HeldByUpdate(s.tasks, v, AfterAbort(t), 0);
  }

  /** Resolution keeps the balance when none of its victims had been aborted before. */
  lemma {:induction false} ResolveConserves(s: State, toAbort: nat, r: Resolution)
    requires Stuck(s) && Conserved(s) && r == Resolve(s, toAbort)
    requires forall v :: v in r.victims ==> v < |s.tasks| && !s.tasks[v].aborted
    ensures Conserved(r.run)
    decreases |s.tasks| - toAbort
  {
    if !Recheck(s) && toAbort < |s.tasks| {
      var v := if !s.tasks[toAbort].Active() then toAbort + 1 else toAbort;
      if v < |s.tasks| {
        var s' := AbortTask(s, v);
        AbortStuck(s, v);
        var r' := Resolve(s', v + 1);
        AbortKeepsFresh(s, toAbort, v, r, r');
        ResolveConserves(s', v + 1, r');
      }
    }
  }

  /** One abort of resolution: the balance holds after it, and the victims still to come are not aborted yet. */
  lemma AbortKeepsFresh(s: State, toAbort: nat, v: nat, r: Resolution, r': Resolution)
    requires Stuck(s) && Conserved(s) && !Recheck(s) && toAbort < |s.tasks|
    requires v == (if !s.tasks[toAbort].Active() then toAbort + 1 else toAbort) && v < |s.tasks|
    requires r == Resolve(s, toAbort) && r' == Resolve(AbortTask(s, v), v + 1)
    requires forall w :: w in r.victims ==> w < |s.tasks| && !s.tasks[w].aborted
    ensures Stuck(AbortTask(s, v)) && Conserved(AbortTask(s, v)) && r.run == r'.run
    ensures forall w :: w in r'.victims ==> w < |AbortTask(s, v).tasks| && !AbortTask(s, v).tasks[w].aborted
  {
    var s' := AbortTask(s, v);
    AbortStuck(s, v);
    ResolveStep(s, toAbort, v, r');
    AbortConserves(s, v);
    ResolveVictims(s', v + 1, r');
    FreshLater(s, v, r'.victims);
  }

  /** Tasks after the victim are as they were. */
  lemma FreshLater(s: State, v: nat, later: seq<nat>)
    requires Shaped(s) && v < |s.tasks|
    requires forall w :: w in [v] + later ==> w < |s.tasks| && !s.tasks[w].aborted
    requires forall w :: w in later ==> v + 1 <= w < |s.tasks|
    ensures forall w :: w in later ==> w < |AbortTask(s, v).tasks| && !AbortTask(s, v).tasks[w].aborted
  {
    forall w | w in later ensures !AbortTask(s, v).tasks[w].aborted {
      assert w in [v] + later;
    }
  }

  /** None of the victims resolution would pick in `s` was aborted before. */
  predicate FreshVictims(s: State)
    requires Stuck(s)
  {
    forall v :: v in Resolve(s, 0).victims ==> v < |s.tasks| && !s.tasks[v].aborted
  }

  /**
   * A cycle keeps the pool and the holdings in balance; under FIFO, when the cycle resolves a
   * deadlock, provided none of the victims had been aborted before.
   */
  lemma CycleConserves(p: Policy, s: State)
    requires Scripted(s) && Valid(s) && Conserved(s)
    requires p == Fifo && AllWaiting(s.tasks) ==>
      Stuck(s.(deadlock := true)) && FreshVictims(s.(deadlock := true))
    ensures Shaped(s) && WaitersAtRequest(s) && Conserved(Cycle(p, s).run)
  {
    ValidShaped(s);
    if p == Bankers {
      CycleRestConserves(p, s);
    } else {
      var s1 := s.(deadlock := AllWaiting(s.tasks));
      assert Valid(s1) && Scripted(s1) && Conserved(s1);
      if !s1.deadlock {
        CycleRestConserves(p, s1);
      } else {
        var r := Resolve(s1, 0);
        ResolveConserves(s1, 0, r);
        ResolveValid(s1, 0, r);
        if !r.fault {
          assert Scripted(r.run);
          CycleRestConserves(p, r.run);
        }
      }
    }
  }

  /** Before the first cycle the pool is full and nobody holds anything. */
  lemma StartConserved(p: Policy, input: Input)
    requires InitiatesOk(Script(input), input.numTasks, |input.totals|)
    ensures Conserved(Start(p, input))
  {
    var s := Start(p, input);
    forall i | 0 <= i < |s.tasks| ensures s.tasks[i].WellFormed() && forall e :: 0 <= e < |s.tasks[i].resourcesHeld| ==> s.tasks[i].resourcesHeld[e] == 0 {
      StartTasks(p, input, i);
    }
    forall x | 0 <= x < |s.total| ensures s.current[x] + HeldBy(s.tasks, x + 1) == s.total[x] {
      HeldByNothing(s.tasks, x + 1);
    }
  }
}
