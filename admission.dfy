/**
 * What admission promises: requests are served largest consecutive wait first, ties in task
 * order; no grant drives a pool below zero; units released in a cycle reach the pool only after
 * admission; and under Banker's no task ever holds more than it claimed.
 */
module Admission {
  import opened Instructions
  import opened Tasks
  import opened Ordering
  import opened Engine
  import opened Invariant
  import opened Conservation
  import opened Startup

  // ---------------------------------------------------------------------------------------------
  // Request ordering.

  /**
   * The admission order is a rearrangement of the pending requests in which the waits never
   * increase, and requests with equal waits keep their order, which is ascending task order.
   */
  lemma SortedOrder(s: State, reqs: seq<nat>, k: nat, k': nat)
    requires (forall q :: q in reqs ==> ReqTyped(s, q)) && TasksAscending(s.instrs, reqs)
    requires k < k' < |reqs|
    ensures var sorted := SortedRequests(s, reqs);
      && WaitOf(s, sorted[k]) >= WaitOf(s, sorted[k'])
      && (WaitOf(s, sorted[k]) == WaitOf(s, sorted[k']) ==> s.instrs[sorted[k]].task < s.instrs[sorted[k']].task)
  {
    var w := Keys(s, reqs);
    var o := Order(w);
    var sorted := SortedRequests(s, reqs);
    assert sorted == Permute(reqs, o);
    OrderSortedStable(w, k, k');
    if w[o[k]] == w[o[k']] {
      assert Below(reqs, |s.instrs|) by {
        forall a | 0 <= a < |reqs| ensures reqs[a] < |s.instrs| {
          assert ReqTyped(s, reqs[a]);
        }
      }
      AscendingPairs(s.instrs, reqs, o[k], o[k']);
    }
  }

  /** The admission order holds every pending request exactly as often as the pass queued it. */
  lemma SortedPermutes(s: State, reqs: seq<nat>)
    requires forall q :: q in reqs ==> ReqTyped(s, q)
    ensures multiset(SortedRequests(s, reqs)) == multiset(reqs)
  {
    var o := Order(Keys(s, reqs));
    assert SortedRequests(s, reqs) == Permute(reqs, o);
    PermuteMultiset(reqs, o);
  }

  // ---------------------------------------------------------------------------------------------
  // The pool never goes negative.

  predicate PoolOk(c: seq<int>) {
    forall x :: 0 <= x < |c| ==> c[x] >= 0
  }

  /**
   * A grant passed the policy's test: under FIFO the pool covers the request; under Banker's it
   * covers the remaining claim, which the pass already checked covers the request. Either way the
   * pool of the requested type stays non-negative.
   */
  lemma GrantKeepsPool(p: Policy, s: State, q: nat)
    requires |s.current| == |s.total| && Queued(p, s, q) && Check(p, s, q) && PoolOk(s.current)
    ensures PoolOk(Grant(s, q).current)
  {
    var t := s.tasks[s.instrs[q].task - 1];
    var rt := s.instrs[q].resType;
    if p == Bankers {
      var e := IndexOf(t.resourceTypes, rt);
      assert s.current[t.resourceTypes[e] - 1] >= t.initialClaims[e] - t.resourcesHeld[e];
    }
  }

  /** Admitting distinct pending requests one after another never drives a pool below zero. */
  lemma {:induction false} AdmitAllKeepsPool(p: Policy, s: State, reqs: seq<nat>)
    requires |s.current| == |s.total| && PoolOk(s.current)
    requires Distinct(reqs) && forall q :: q in reqs ==> Queued(p, s, q)
    ensures forall q :: q in reqs ==> ReqTyped(s, q)
    ensures PoolOk(AdmitAll(p, s, reqs).current)
    decreases |reqs|
  {
    if reqs != [] {
      var q, rest := reqs[0], reqs[1..];
      DistinctTail(reqs);
      assert Queued(p, s, q) by { assert q in reqs; }
      var s1 := Admit(p, s, q);
      if Check(p, s, q) {
        GrantKeepsPool(p, s, q);
      }
      OthersQueued(p, s, q, rest, s1);
      AdmitAllKeepsPool(p, s1, rest);
    }
  }

  // ---------------------------------------------------------------------------------------------
  // Deferred releases.

  /** Every amount of the script is non-negative. */
  predicate AmountsOk(instrs: seq<Instruction>) {
    forall q :: 0 <= q < |instrs| ==>
      instrs[q].initialClaim >= 0 && instrs[q].numberRequested >= 0 && instrs[q].numberReleased >= 0
  }

  /** With non-negative requests, admission only ever takes units out of the pool. */
  lemma {:induction false} AdmitAllNoGain(p: Policy, s: State, reqs: seq<nat>)
    requires |s.current| == |s.total| && AmountsOk(s.instrs) && forall q :: q in reqs ==> ReqTyped(s, q)
    ensures forall x :: 0 <= x < |s.current| ==> AdmitAll(p, s, reqs).current[x] <= s.current[x]
    decreases |reqs|
  {
    if reqs != [] {
      var s1 := Admit(p, s, reqs[0]);
      assert forall q :: q in reqs[1..] ==> ReqTyped(s1, q) by {
        forall q | q in reqs[1..] ensures ReqTyped(s1, q) {
          assert ReqTyped(s, q);
        }
      }
      AdmitAllNoGain(p, s1, reqs[1..]);
    }
  }

  /**
   * Units released during a cycle are not in the pool admission draws from: the pass leaves the
   * pool as it was, admission never adds to it, and the releases land in it only at the end.
   */
  lemma DeferredReleases(p: Policy, s: State)
    requires Shaped(s) && AmountsOk(s.instrs)
    ensures var g := Dispatch(p, s);
      && g.run.current == s.current
      && (forall q :: q in g.pend.reqs ==> ReqTyped(g.run, q)) && ReleasesOk(g.pend, |s.total|)
      && var a := AdmitAll(p, g.run, SortedRequests(g.run, g.pend.reqs));
      && (forall x :: 0 <= x < |s.current| ==> a.current[x] <= s.current[x])
      && (forall x :: 0 <= x < |s.current| ==> CycleRest(p, s).current[x] == a.current[x] + InFlight(g.pend, x + 1))
  {
    DispatchUpToShape(p, s, |s.tasks|);
    var g := Dispatch(p, s);
    AdmitAllNoGain(p, g.run, SortedRequests(g.run, g.pend.reqs));
  }

  // ---------------------------------------------------------------------------------------------
  // Banker's: an over-claiming request aborts its task.

  /**
   * Under Banker's, a request above the task's remaining claim on the requested type aborts the
   * task on the spot; nothing is queued for admission, and every unit the task holds is queued
   * for the end-of-cycle credit rather than returned to the pool at once.
   */
  lemma OverClaimAborts(g: Stage, i: nat, h: Stage)
    requires |g.run.delays| == |g.run.instrs| && i < |g.run.tasks|
    requires Ready(g.run.instrs, |g.run.total|, g.run.tasks[i], i) && |g.pend.relAmounts| == |g.pend.relTypes|
    requires h == DispatchTask(Bankers, g.run, g.pend, i)
    requires var t := g.run.tasks[i];
      t.Active() &&
      var q := Current(g.run.instrs, t, i);
      var ins := g.run.instrs[q];
      && g.run.delays[q] == 0 && ins.kind == Request
      && ins.numberRequested > t.initialClaims[IndexOf(t.resourceTypes, ins.resType)]
                               - t.resourcesHeld[IndexOf(t.resourceTypes, ins.resType)]
    ensures h.run.tasks[i] == AfterAbort(g.run.tasks[i]) && !h.run.tasks[i].Active()
    ensures h.run.current == g.run.current && h.pend.reqs == g.pend.reqs
    ensures |h.pend.relAmounts| == |h.pend.relTypes|
    ensures forall r :: InFlight(h.pend, r) == InFlight(g.pend, r) + HeldOf(g.run.tasks[i], r)
  {
    var t := g.run.tasks[i];
    forall r ensures InFlight(h.pend, r) == InFlight(g.pend, r) + HeldOf(t, r) {
      SumHeldAppend(g.pend.relTypes, g.pend.relAmounts, t.resourceTypes, t.resourcesHeld, r);
    }
  }

  // ---------------------------------------------------------------------------------------------
  // Banker's: holdings stay within claims.

  /** Every entry of the task holds at most its claim. */
  predicate WithinClaims(t: TaskRec) {
    t.WellFormed() && forall e :: 0 <= e < |t.resourcesHeld| ==> t.resourcesHeld[e] <= t.initialClaims[e]
  }

  /** No task that is not aborted holds more than it claimed. */
  predicate HeldOk(tasks: seq<TaskRec>) {
    forall i :: 0 <= i < |tasks| && !tasks[i].aborted ==> WithinClaims(tasks[i])
  }

  /** Replacing one task by one that is aborted or within its claims keeps every holding within its claim. */
  lemma HeldSwap(tasks: seq<TaskRec>, i: nat, t': TaskRec)
    requires HeldOk(tasks) && i < |tasks| && (!t'.aborted ==> WithinClaims(t'))
    ensures HeldOk(tasks[i := t'])
  {
  }

  /** Task `i`'s step of a Banker's pass keeps every holding within its claim. */
  lemma DispatchTaskHeld(g: Stage, i: nat, h: Stage)
    requires AmountsOk(g.run.instrs) && HeldOk(g.run.tasks) && |g.run.delays| == |g.run.instrs| && i < |g.run.tasks|
    requires Ready(g.run.instrs, |g.run.total|, g.run.tasks[i], i) && h == DispatchTask(Bankers, g.run, g.pend, i)
    ensures HeldOk(h.run.tasks)
  {
    var s := g.run;
    var t := s.tasks[i];
    if t.Active() {
      var q := Current(s.instrs, t, i);
      var ins := s.instrs[q];
      if s.delays[q] == 0 && ins.kind == Release {
        var t' := AfterRelease(t, ins.resType, ins.numberReleased);
        assert WithinClaims(t') by {
          var e := IndexOf(t.resourceTypes, ins.resType);
          assert WithinClaims(t);
          forall e' | 0 <= e' < |t'.resourcesHeld| ensures t'.resourcesHeld[e'] <= t'.initialClaims[e'] {
            if e' == e {
              assert t'.resourcesHeld[e'] == t.resourcesHeld[e] - ins.numberReleased;
            }
          }
        }
        HeldSwap(s.tasks, i, t');
      } else if s.delays[q] == 0 && ins.kind == Terminate {
        HeldSwap(s.tasks, i, AfterTerminate(t));
      } else if s.delays[q] == 0 && ins.kind == Request {
        assert h.run.tasks == s.tasks || h.run.tasks == s.tasks[i := AfterAbort(t)];
      } else if s.delays[q] != 0 {
        HeldSwap(s.tasks, i, AfterDelay(t));
      }
    }
  }

  lemma DispatchStepHeld(s: State, i: nat, g0: Stage, g: Stage)
    requires Shaped(s) && AmountsOk(s.instrs) && 0 < i <= |s.tasks|
    requires g0 == DispatchUpTo(Bankers, s, i - 1) && g == DispatchUpTo(Bankers, s, i) && HeldOk(g0.run.tasks)
    ensures HeldOk(g.run.tasks)
  {
    NextReady(s, g0.run, i - 1);
    DispatchTaskHeld(g0, i - 1, g);
  }

  /** A Banker's pass over the first `i` tasks keeps every holding within its claim. */
  lemma {:induction false} DispatchUpToHeld(s: State, i: nat)
    requires Shaped(s) && AmountsOk(s.instrs) && HeldOk(s.tasks) && i <= |s.tasks|
    ensures HeldOk(DispatchUpTo(Bankers, s, i).run.tasks)
  {
    if i > 0 {
      DispatchUpToHeld(s, i - 1);
      DispatchStepHeld(s, i, DispatchUpTo(Bankers, s, i - 1), DispatchUpTo(Bankers, s, i));
    }
  }

  /** A Banker's grant stays within the remaining claim the pass checked. */
  lemma GrantHeld(s: State, q: nat)
    requires |s.current| == |s.total| && Queued(Bankers, s, q) && HeldOk(s.tasks)
    ensures HeldOk(Grant(s, q).tasks)
  {
    var i := s.instrs[q].task - 1;
    var t := s.tasks[i];
    var ins := s.instrs[q];
    var e := IndexOf(t.resourceTypes, ins.resType);
    var t' := AfterGranted(t, ins.resType, ins.numberRequested);
    assert WithinClaims(t') by {
      assert WithinClaims(t);
      forall e' | 0 <= e' < |t'.resourcesHeld| ensures t'.resourcesHeld[e'] <= t'.initialClaims[e'] {
        if e' == e {
          assert t'.resourcesHeld[e'] == t.resourcesHeld[e] + ins.numberRequested;
        }
      }
    }
    HeldSwap(s.tasks, i, t');
  }

  /** Banker's admission of distinct pending requests keeps every holding within its claim. */
  lemma {:induction false} AdmitAllHeld(s: State, reqs: seq<nat>)
    requires |s.current| == |s.total| && HeldOk(s.tasks)
    requires Distinct(reqs) && forall q :: q in reqs ==> Queued(Bankers, s, q)
    ensures forall q :: q in reqs ==> ReqTyped(s, q)
    ensures HeldOk(AdmitAll(Bankers, s, reqs).tasks)
    decreases |reqs|
  {
    if reqs != [] {
      var q, rest := reqs[0], reqs[1..];
      DistinctTail(reqs);
      assert Queued(Bankers, s, q) by { assert q in reqs; }
      var s1 := Admit(Bankers, s, q);
      if Check(Bankers, s, q) {
        GrantHeld(s, q);
      } else {
        HeldSwap(s.tasks, s.instrs[q].task - 1, AfterWait(s.tasks[s.instrs[q].task - 1]));
        assert s1.tasks == s.tasks[s.instrs[q].task - 1 := AfterWait(s.tasks[s.instrs[q].task - 1])];
      }
      OthersQueued(Bankers, s, q, rest, s1);
      AdmitAllHeld(s1, rest);
    }
  }

  /** A Banker's cycle keeps every holding within its claim. */
  lemma CycleHeld(s: State)
    requires Scripted(s) && Valid(s) && AmountsOk(s.instrs) && HeldOk(s.tasks)
    ensures Shaped(s) && WaitersAtRequest(s) && HeldOk(Cycle(Bankers, s).run.tasks)
  {
    ValidShaped(s);
    DispatchUpToValid(Bankers, s, |s.tasks|);
    DispatchUpToShape(Bankers, s, |s.tasks|);
    DispatchUpToHeld(s, |s.tasks|);
    var g := Dispatch(Bankers, s);
    var reqs := g.pend.reqs;
    AscendingDistinct(g.run.instrs, reqs);
    var o := Order(Keys(g.run, reqs));
    PermuteDistinct(reqs, o);
    var sorted := SortedRequests(g.run, reqs);
    assert sorted == Permute(reqs, o);
    AdmitAllHeld(g.run, sorted);
    assert Cycle(Bankers, s).run.tasks == AdmitAll(Bankers, g.run, sorted).tasks;
  }

  /** Claims of initiates with non-negative amounts are non-negative. */
  lemma {:induction false} ClaimsNonNegative(instrs: seq<Instruction>, t: int)
    requires AmountsOk(instrs)
    ensures forall e :: 0 <= e < |InitiatedClaims(instrs, t)| ==> InitiatedClaims(instrs, t)[e] >= 0
    decreases |instrs|
  {
    if instrs != [] {
      var n := |instrs| - 1;
      assert AmountsOk(instrs[..n]);
      ClaimsNonNegative(instrs[..n], t);
    }
  }

  /** Before the first cycle nobody holds anything, so no holding exceeds a non-negative claim. */
  lemma StartHeld(p: Policy, input: Input)
    requires InitiatesOk(Script(input), input.numTasks, |input.totals|) && AmountsOk(Script(input))
    ensures HeldOk(Start(p, input).tasks)
  {
    var s := Start(p, input);
    var instrs := Script(input);
    assert instrs[..|instrs|] == instrs;
    forall i | 0 <= i < |s.tasks| && !s.tasks[i].aborted ensures WithinClaims(s.tasks[i]) {
      StartTasks(p, input, i);
      ClaimsNonNegative(instrs, i + 1);
    }
  }
}
