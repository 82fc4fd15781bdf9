/**
 * Per-task bookkeeping: the claims and holdings of each resource type the task initiated, its
 * cursor into its own instructions, its timing counters and its status.
 */
module Tasks {

  /**
   * The value of a task. `resourceTypes`, `initialClaims` and `resourcesHeld` are parallel lists,
   * one entry per initiate the task executed (a type initiated twice has two entries).
   */
  datatype TaskRec = TaskRec(timeTaken: int, waitingTime: int, currInstr: nat, currWait: nat,
                             complete: bool, aborted: bool,
                             resourceTypes: seq<int>, initialClaims: seq<int>, resourcesHeld: seq<int>)
  {
    predicate Active() {
      !complete && !aborted
    }

    predicate WellFormed() {
      |initialClaims| == |resourceTypes| && |resourcesHeld| == |resourceTypes|
    }
  }

  /** A newly created task: no time, no claims, cursor at its first instruction. */
  function FreshTask(): TaskRec {
    TaskRec(0, 0, 0, 0, false, false, [], [], [])
  }

  /** The first entry of `types` equal to `rt`: the entry every lookup by resource type uses. */
  function IndexOf(types: seq<int>, rt: int): (e: nat)
    requires rt in types
    ensures e < |types| && types[e] == rt && rt !in types[..e]
  {
    if types[0] == rt then 0
    else
      var e := IndexOf(types[1..], rt);
      assert types[..e + 1] == [types[0]] + types[1..][..e];
      e + 1
  }

  function AfterInitiate(t: TaskRec, rt: int, claim: int): TaskRec {
    t.(resourceTypes := t.resourceTypes + [rt], initialClaims := t.initialClaims + [claim],
       resourcesHeld := t.resourcesHeld + [0],
       currInstr := t.currInstr + 1, timeTaken := t.timeTaken + 1)
  }

  function AfterGranted(t: TaskRec, rt: int, k: int): TaskRec
    requires t.WellFormed() && rt in t.resourceTypes
  {
    var e := IndexOf(t.resourceTypes, rt);
    t.(resourcesHeld := t.resourcesHeld[e := t.resourcesHeld[e] + k],
       currInstr := t.currInstr + 1, timeTaken := t.timeTaken + 1, currWait := 0)
  }

  function AfterRelease(t: TaskRec, rt: int, k: int): TaskRec
    requires t.WellFormed() && rt in t.resourceTypes
  {
    var e := IndexOf(t.resourceTypes, rt);
    t.(resourcesHeld := t.resourcesHeld[e := t.resourcesHeld[e] - k],
       currInstr := t.currInstr + 1, timeTaken := t.timeTaken + 1)
  }

  /** Terminating charges no time. */
  function AfterTerminate(t: TaskRec): TaskRec {
    t.(complete := true, currInstr := t.currInstr + 1)
  }

  function AfterWait(t: TaskRec): TaskRec {
    t.(timeTaken := t.timeTaken + 1, waitingTime := t.waitingTime + 1, currWait := t.currWait + 1)
  }

  /** Aborting writes the sentinel -1 into both counters and keeps the holdings as they were. */
  function AfterAbort(t: TaskRec): TaskRec {
    t.(aborted := true, timeTaken := -1, waitingTime := -1)
  }

  function AfterDelay(t: TaskRec): TaskRec {
    t.(timeTaken := t.timeTaken + 1)
  }

  /** Units of resource type `r` over the entries of parallel lists `types` and `held`. */
  function SumHeld(types: seq<int>, held: seq<int>, r: int): int
    requires |held| == |types|
  {
    if types == [] then 0
    else SumHeld(types[..|types| - 1], held[..|held| - 1], r) +
         (if types[|types| - 1] == r then held[|held| - 1] else 0)
  }

  /** Units of resource type `r` the task holds. */
  function HeldOf(t: TaskRec, r: int): int
    requires t.WellFormed()
  {
    SumHeld(t.resourceTypes, t.resourcesHeld, r)
  }

  /** Changing one entry by `d` changes the units held of that entry's type by `d`, and no other. */
  lemma {:induction false} SumHeldUpdate(types: seq<int>, held: seq<int>, e: nat, d: int, r: int)
    requires |held| == |types| && e < |types|
    ensures SumHeld(types, held[e := held[e] + d], r) ==
            SumHeld(types, held, r) + (if types[e] == r then d else 0)
    decreases |types|
  {
    var n := |types| - 1;
    var held' := held[e := held[e] + d];
    if e == n {
      assert held'[..n] == held[..n];
    } else {
      assert held'[..n] == held[..n][e := held[e] + d];
      SumHeldUpdate(types[..n], held[..n], e, d, r);
    }
  }

  /** A grant of `k` units of `rt` raises the holding of `rt` by `k` and no other holding. */
  lemma GrantedHeld(t: TaskRec, rt: int, k: int, r: int)
    requires t.WellFormed() && rt in t.resourceTypes
    ensures AfterGranted(t, rt, k).WellFormed()
    ensures HeldOf(AfterGranted(t, rt, k), r) == HeldOf(t, r) + (if r == rt then k else 0)
  {
    SumHeldUpdate(t.resourceTypes, t.resourcesHeld, IndexOf(t.resourceTypes, rt), k, r);
  }

  /** A release of `k` units of `rt` lowers the holding of `rt` by `k` and no other holding. */
  lemma ReleasedHeld(t: TaskRec, rt: int, k: int, r: int)
    requires t.WellFormed() && rt in t.resourceTypes
    ensures AfterRelease(t, rt, k).WellFormed()
    ensures HeldOf(AfterRelease(t, rt, k), r) == HeldOf(t, r) - (if r == rt then k else 0)
  {
    SumHeldUpdate(t.resourceTypes, t.resourcesHeld, IndexOf(t.resourceTypes, rt), -k, r);
  }

  /** An initiate adds an entry holding nothing. */
  lemma InitiateHeld(t: TaskRec, rt: int, claim: int, r: int)
    requires t.WellFormed()
    ensures AfterInitiate(t, rt, claim).WellFormed()
    ensures HeldOf(AfterInitiate(t, rt, claim), r) == HeldOf(t, r)
  {
    var t' := AfterInitiate(t, rt, claim);
    assert t'.resourceTypes[..|t.resourceTypes|] == t.resourceTypes;
    assert t'.resourcesHeld[..|t.resourcesHeld|] == t.resourcesHeld;
  }

  /** A task whose entries all hold nothing holds nothing of any type. */
  lemma {:induction false} NothingHeld(types: seq<int>, held: seq<int>, r: int)
    requires |held| == |types| && forall e :: 0 <= e < |held| ==> held[e] == 0
    ensures SumHeld(types, held, r) == 0
    decreases |types|
  {
    if types != [] {
      NothingHeld(types[..|types| - 1], held[..|held| - 1], r);
    }
  }

  /** A task as the resource manager keeps it: its fields change only through these methods. */
  class Task {
    var timeTaken: int
    var waitingTime: int
    var currInstr: nat
    var currWait: nat
    var complete: bool
    var aborted: bool
    var resourceTypes: seq<int>
    var initialClaims: seq<int>
    var resourcesHeld: seq<int>

    function Rec(): TaskRec
      reads this
    {
      TaskRec(timeTaken, waitingTime, currInstr, currWait, complete, aborted,
              resourceTypes, initialClaims, resourcesHeld)
    }

    constructor ()
      ensures Rec() == FreshTask()
    {
      timeTaken, waitingTime, currInstr, currWait := 0, 0, 0, 0;
      complete, aborted := false, false;
      resourceTypes, initialClaims, resourcesHeld := [], [], [];
    }

    method Initiate(rt: int, claim: int)
      modifies this
      ensures Rec() == AfterInitiate(old(Rec()), rt, claim)
    {
      resourceTypes := resourceTypes + [rt];
      initialClaims := initialClaims + [claim];
      resourcesHeld := resourcesHeld + [0];
      currInstr := currInstr + 1;
      timeTaken := timeTaken + 1;
    }

    method Granted(rt: int, numGranted: int)
      requires Rec().WellFormed() && rt in resourceTypes
      modifies this
      ensures Rec() == AfterGranted(old(Rec()), rt, numGranted)
    {
      var e := IndexOf(resourceTypes, rt);
      resourcesHeld := resourcesHeld[e := resourcesHeld[e] + numGranted];
      currInstr := currInstr + 1;
      timeTaken := timeTaken + 1;
      currWait := 0;
    }

    method Release(rt: int, numToRelease: int)
      requires Rec().WellFormed() && rt in resourceTypes
      modifies this
      ensures Rec() == AfterRelease(old(Rec()), rt, numToRelease)
    {
      var e := IndexOf(resourceTypes, rt);
      resourcesHeld := resourcesHeld[e := resourcesHeld[e] - numToRelease];
      currInstr := currInstr + 1;
      timeTaken := timeTaken + 1;
    }

    method Terminate()
      modifies this
      ensures Rec() == AfterTerminate(old(Rec()))
    {
      complete := true;
      currInstr := currInstr + 1;
    }

    method Wait()
      modifies this
      ensures Rec() == AfterWait(old(Rec()))
    {
      timeTaken := timeTaken + 1;
      waitingTime := waitingTime + 1;
      currWait := currWait + 1;
    }

    method Abort()
      modifies this
      ensures Rec() == AfterAbort(old(Rec()))
    {
      aborted := true;
      timeTaken := -1;
      waitingTime := -1;
    }

    method Delay()
      modifies this
      ensures Rec() == AfterDelay(old(Rec()))
    {
      timeTaken := timeTaken + 1;
    }
  }

  /** The values of a list of task objects. */
  function RecsOf(ts: seq<Task>): (rs: seq<TaskRec>)
    reads ts
    ensures |rs| == |ts| && forall i :: 0 <= i < |ts| ==> rs[i] == ts[i].Rec()
  {
    seq(|ts|, i reads ts requires 0 <= i < |ts| => ts[i].Rec())
  }
}
