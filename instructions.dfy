/** The instruction script: one record per input line, and the per-task cursor lookup. */
module Instructions {

  datatype Kind = Initiate | Request | Release | Terminate

  /** One parsed input line: kind, task number (1-based), delay, resource type (1-based), amount. */
  datatype Quintuple = Quintuple(kind: Kind, task: int, delay: int, resType: int, amount: int)

  /**
   * An instruction as the engine stores it. Exactly one of the three amount fields is set from
   * the input line, according to the kind; the other two stay 0. The delay here is the initial
   * countdown; the engine keeps the running countdowns apart, one per instruction.
   */
  datatype Instruction = Instruction(kind: Kind, task: int, delay: int, resType: int,
                                     initialClaim: int, numberRequested: int, numberReleased: int)

  /** The amount an instruction carries, whatever field holds it. */
  function Amount(ins: Instruction): int {
    ins.initialClaim + ins.numberRequested + ins.numberReleased
  }

  /** The Instruction constructor. */
  function MakeInstruction(line: Quintuple): (ins: Instruction)
    ensures ins.kind == line.kind && ins.task == line.task && ins.delay == line.delay
    ensures ins.resType == line.resType
    ensures Amount(ins) == (if line.kind == Terminate then 0 else line.amount)
    ensures ins.kind != Initiate ==> ins.initialClaim == 0
    ensures ins.kind != Request ==> ins.numberRequested == 0
    ensures ins.kind != Release ==> ins.numberReleased == 0
  {
    Instruction(line.kind, line.task, line.delay, line.resType,
                if line.kind == Initiate then line.amount else 0,
                if line.kind == Request then line.amount else 0,
                if line.kind == Release then line.amount else 0)
  }

  /** Number of instructions of task `t` in `s`. */
  function Count(s: seq<Instruction>, t: int): (c: nat)
    ensures c <= |s|
  {
    if s == [] then 0
    else Count(s[..|s| - 1], t) + (if s[|s| - 1].task == t then 1 else 0)
  }

  lemma CountSnoc(s: seq<Instruction>, j: nat, t: int)
    requires j < |s|
    ensures Count(s[..j + 1], t) == Count(s[..j], t) + (if s[j].task == t then 1 else 0)
  {
    assert s[..j + 1][..j] == s[..j];
  }

  /**
   * The scan of the instruction list that finds task `t`'s instruction number `k`, having passed
   * position `j` with `seen` instructions of `t` behind it.
   */
  function Scan(s: seq<Instruction>, t: int, k: nat, j: nat, seen: nat): (r: nat)
    requires j <= |s| && seen == Count(s[..j], t) && seen <= k < Count(s, t)
    ensures j <= r < |s| && s[r].task == t && Count(s[..r], t) == k
    decreases |s| - j
  {
    assert s[..|s|] == s;
    CountSnoc(s, j, t);
    if s[j].task == t then
      if seen == k then j else Scan(s, t, k, j + 1, seen + 1)
    else
      Scan(s, t, k, j + 1, seen)
  }

  /**
   * The position of task `t`'s instruction number `k` (counting from 0) in the whole list: it
   * belongs to `t` and exactly `k` earlier entries belong to `t`.
   */
  function Locate(s: seq<Instruction>, t: int, k: nat): (r: nat)
    requires k < Count(s, t)
    ensures r < |s| && s[r].task == t && Count(s[..r], t) == k
  {
    assert s[..0] == [];
    Scan(s, t, k, 0, 0)
  }

  lemma {:induction false} CountPrefixMonotone(s: seq<Instruction>, t: int, i: nat, j: nat)
    requires i <= j <= |s|
    ensures Count(s[..i], t) <= Count(s[..j], t)
    ensures i < j && s[i].task == t ==> Count(s[..i], t) < Count(s[..j], t)
    decreases j - i
  {
    if i < j {
      CountSnoc(s, j - 1, t);
      CountPrefixMonotone(s, t, i, j - 1);
      if i < j - 1 {
        CountSnoc(s, i, t);
        CountPrefixMonotone(s, t, i + 1, j - 1);
      }
    }
  }

  /** No other position of the list is task `t`'s instruction number `k`. */
  lemma LocateUnique(s: seq<Instruction>, t: int, k: nat, q: nat)
    requires k < Count(s, t)
    requires q < |s| && s[q].task == t && Count(s[..q], t) == k
    ensures q == Locate(s, t, k)
  {
    var r := Locate(s, t, k);
    if q < r {
      CountPrefixMonotone(s, t, q, r);
    } else if r < q {
      CountPrefixMonotone(s, t, r, q);
    }
  }

  /** The resource types of task `t`'s initiate instructions, in script order. */
  function InitiatedTypes(s: seq<Instruction>, t: int): seq<int> {
    if s == [] then []
    else InitiatedTypes(s[..|s| - 1], t) +
         (if s[|s| - 1].kind == Initiate && s[|s| - 1].task == t then [s[|s| - 1].resType] else [])
  }

  /** The claims of task `t`'s initiate instructions, in script order. */
  function InitiatedClaims(s: seq<Instruction>, t: int): (c: seq<int>)
    ensures |c| == |InitiatedTypes(s, t)|
  {
    if s == [] then []
    else InitiatedClaims(s[..|s| - 1], t) +
         (if s[|s| - 1].kind == Initiate && s[|s| - 1].task == t then [s[|s| - 1].initialClaim] else [])
  }

  lemma InitiatedSnoc(s: seq<Instruction>, j: nat, t: int)
    requires j < |s|
    ensures InitiatedTypes(s[..j + 1], t) ==
            InitiatedTypes(s[..j], t) + (if s[j].kind == Initiate && s[j].task == t then [s[j].resType] else [])
    ensures InitiatedClaims(s[..j + 1], t) ==
            InitiatedClaims(s[..j], t) + (if s[j].kind == Initiate && s[j].task == t then [s[j].initialClaim] else [])
  {
    assert s[..j + 1][..j] == s[..j];
  }

  /** Task `t` has at least one instruction and its last one is a terminate. */
  predicate LastIsTerminate(s: seq<Instruction>, t: int) {
    Count(s, t) > 0 && s[Locate(s, t, Count(s, t) - 1)].kind == Terminate
  }

  /** A task's instruction that is not its terminate is followed by another one of the same task. */
  lemma NotLast(s: seq<Instruction>, t: int, k: nat)
    requires LastIsTerminate(s, t) && k < Count(s, t)
    requires s[Locate(s, t, k)].kind != Terminate
    ensures k + 1 < Count(s, t)
  {
  }

  /** A task has fewer initiates than instructions as soon as one of its instructions is no initiate. */
  lemma {:induction false} InitiatesFewer(s: seq<Instruction>, t: int, q: nat)
    requires q < |s| && s[q].task == t && s[q].kind != Initiate
    ensures |InitiatedTypes(s, t)| < Count(s, t)
    decreases |s|
  {
    var p := s[..|s| - 1];
    if q == |s| - 1 {
      InitiatesAtMost(p, t);
    } else {
      assert p[q] == s[q];
      InitiatesFewer(p, t, q);
    }
  }

  lemma {:induction false} InitiatesAtMost(s: seq<Instruction>, t: int)
    ensures |InitiatedTypes(s, t)| <= Count(s, t)
    decreases |s|
  {
    if s != [] {
      InitiatesAtMost(s[..|s| - 1], t);
    }
  }

  /** A task that ends with a terminate has fewer initiates than instructions. */
  lemma TerminateBoundsInitiates(s: seq<Instruction>, t: int)
    requires LastIsTerminate(s, t)
    ensures |InitiatedTypes(s, t)| < Count(s, t)
  {
    InitiatesFewer(s, t, Locate(s, t, Count(s, t) - 1));
  }
}
