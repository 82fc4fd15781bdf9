/** Properties of FIFO deadlock detection and resolution. */
module Deadlock {
  import opened Tasks
  import opened Engine

  /** Strictly increasing. */
  predicate Ascending(u: seq<nat>) {
    forall a :: 0 < a < |u| ==> u[a - 1] < u[a]
  }

  /** Resolution aborts tasks in ascending index order, each from candidate `toAbort` on. */
  lemma {:induction false} ResolveVictims(s: State, toAbort: nat, r: Resolution)
    requires Stuck(s) && r == Resolve(s, toAbort)
    ensures Ascending(r.victims) && forall v :: v in r.victims ==> toAbort <= v < |s.tasks|
    decreases |s.tasks| - toAbort
  {
    if !Recheck(s) && toAbort < |s.tasks| {
      var v := if !s.tasks[toAbort].Active() then toAbort + 1 else toAbort;
      if v < |s.tasks| {
        var s' := AbortTask(s, v);
        var r' := ResolveNext(s, toAbort, v);
        ResolveVictims(s', v + 1, r');
        AscendingCons(v, r'.victims);
      }
    }
  }

  /** A smaller element in front keeps a sequence strictly increasing. */
  lemma AscendingCons(v: nat, u: seq<nat>)
    requires Ascending(u) && forall w :: w in u ==> v < w
    ensures Ascending([v] + u)
  {
    forall a | 0 < a < |[v] + u| ensures ([v] + u)[a - 1] < ([v] + u)[a] {
      if a > 1 {
        assert ([v] + u)[a - 1] == u[a - 2];
      } else {
        assert u[0] in u;
      }
    }
  }

  /** Every task resolution does not pick is left as it was. */
  lemma {:induction false} ResolveFrame(s: State, toAbort: nat, r: Resolution)
    requires Stuck(s) && r == Resolve(s, toAbort)
    ensures forall j :: 0 <= j < |s.tasks| && j !in r.victims ==> r.run.tasks[j] == s.tasks[j]
    decreases |s.tasks| - toAbort
  {
    if !Recheck(s) && toAbort < |s.tasks| {
      var v := if !s.tasks[toAbort].Active() then toAbort + 1 else toAbort;
      if v < |s.tasks| {
        var s' := AbortTask(s, v);
        var r' := ResolveNext(s, toAbort, v);
        ResolveFrame(s', v + 1, r');
        forall j | 0 <= j < |s.tasks| && j !in r.victims ensures r.run.tasks[j] == s.tasks[j] {
          assert j != v && j !in r'.victims;
          assert s'.tasks[j] == s.tasks[j];
        }
      }
    }
  }

  /** Every task resolution picks ends up aborted. */
  lemma {:induction false} ResolveAborts(s: State, toAbort: nat, r: Resolution)
    requires Stuck(s) && r == Resolve(s, toAbort)
    ensures forall v :: v in r.victims ==> v < |r.run.tasks| && r.run.tasks[v].aborted
    decreases |s.tasks| - toAbort
  {
    if !Recheck(s) && toAbort < |s.tasks| {
      var v := if !s.tasks[toAbort].Active() then toAbort + 1 else toAbort;
      if v < |s.tasks| {
        var s' := AbortTask(s, v);
        var r' := ResolveNext(s, toAbort, v);
        ResolveAborts(s', v + 1, r');
        if v !in r'.victims {
          ResolveFrame(s', v + 1, r');
          assert r.run.tasks[v] == s'.tasks[v];
        }
        forall w | w in r.victims ensures w < |r.run.tasks| && r.run.tasks[w].aborted {
          assert w == v || w in r'.victims;
        }
      }
    }
  }

  /** Resolution that does not fault ends because some active task's request fits the pool, and clears the flag. */
  lemma {:induction false} ResolveStops(s: State, toAbort: nat, r: Resolution)
    requires Stuck(s) && r == Resolve(s, toAbort)
    ensures !r.fault ==> Stuck(r.run) && Recheck(r.run) && !r.run.deadlock
    decreases |s.tasks| - toAbort
  {
    ResolveStuck(s, toAbort);
    if !Recheck(s) && toAbort < |s.tasks| {
      var v := if !s.tasks[toAbort].Active() then toAbort + 1 else toAbort;
      if v < |s.tasks| {
        var s' := AbortTask(s, v);
        var r' := ResolveNext(s, toAbort, v);
        ResolveStops(s', v + 1, r');
      }
    }
  }

  /** A resolution that faults leaves the deadlock flag as it found it. */
  lemma {:induction false} FaultKeepsFlag(s: State, toAbort: nat, r: Resolution)
    requires Stuck(s) && r == Resolve(s, toAbort)
    ensures r.fault ==> r.run.deadlock == s.deadlock
    decreases |s.tasks| - toAbort
  {
    if !Recheck(s) && toAbort < |s.tasks| {
      var v := if !s.tasks[toAbort].Active() then toAbort + 1 else toAbort;
      if v < |s.tasks| {
        var s' := AbortTask(s, v);
        var r' := ResolveNext(s, toAbort, v);
        FaultKeepsFlag(s', v + 1, r');
      }
    }
  }

  /**
   * Starting from a candidate with no active task before it, resolution faults exactly when it
   * leaves no active task: running past the last task happens only once every task is inactive.
   */
  lemma {:induction false} ResolveFault(s: State, toAbort: nat, r: Resolution)
    requires Stuck(s) && r == Resolve(s, toAbort)
    requires forall j :: 0 <= j < toAbort && j < |s.tasks| ==> !s.tasks[j].Active()
    ensures r.fault <==> forall j :: 0 <= j < |r.run.tasks| ==> !r.run.tasks[j].Active()
    decreases |s.tasks| - toAbort
  {
    if !Recheck(s) && toAbort < |s.tasks| {
      var v := if !s.tasks[toAbort].Active() then toAbort + 1 else toAbort;
      if v < |s.tasks| {
        var s' := AbortTask(s, v);
        InactiveThrough(s, toAbort, v);
        var r' := ResolveNext(s, toAbort, v);
        ResolveFault(s', v + 1, r');
        assert r.run == r'.run && r.fault == r'.fault;
      } else {
        assert r.run == s && toAbort + 1 == |s.tasks|;
      }
    } else if Recheck(s) {
      var i :| 0 <= i < |s.tasks| && s.tasks[i].Active() && Fits(s, i);
      assert r.run.tasks[i].Active();
    }
  }

  /** After a round that aborts `v`, no task up to `v` is active. */
  lemma InactiveThrough(s: State, toAbort: nat, v: nat)
    requires Stuck(s) && toAbort < |s.tasks|
    requires v == (if !s.tasks[toAbort].Active() then toAbort + 1 else toAbort) && v < |s.tasks|
    requires forall j :: 0 <= j < toAbort ==> !s.tasks[j].Active()
    ensures forall j :: 0 <= j < v + 1 && j < |s.tasks| ==> !AbortTask(s, v).tasks[j].Active()
  {
    var s' := AbortTask(s, v);
    forall j | 0 <= j < v + 1 && j < |s.tasks| ensures !s'.tasks[j].Active() {
      if j != v {
        assert s'.tasks[j] == s.tasks[j];
      }
    }
  }

  /**
   * The victim search skips at most one inactive task: with two inactive tasks in a row at the
   * candidate, the second one is aborted even though it is not active.
   */
  lemma SkipsOnlyOne(s: State, toAbort: nat)
    requires Stuck(s) && !Recheck(s) && toAbort + 1 < |s.tasks|
    requires !s.tasks[toAbort].Active() && !s.tasks[toAbort + 1].Active()
    ensures var r := Resolve(s, toAbort);
      |r.victims| > 0 && r.victims[0] == toAbort + 1 && !s.tasks[r.victims[0]].Active()
  {
  }

  /** Under FIFO a cycle resolves a deadlock only when every active task has waited; under Banker's never. */
  lemma CycleFlags(p: Policy, s: State)
    requires Shaped(s) && WaitersAtRequest(s)
    ensures var o := Cycle(p, s); (o.victims != [] || o.Stopped?) ==> p == Fifo && AllWaiting(s.tasks)
  {
  }
}
