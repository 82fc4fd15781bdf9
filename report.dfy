/** The two numbers per task a run reports, and the digit count used to size the report's columns. */
module Report {
  import opened Tasks

  /** Time taken and time waiting of every task, in task order, one pair per task. */
  function GatherResults(tasks: seq<TaskRec>): (r: seq<int>)
    ensures |r| == 2 * |tasks|
    ensures forall i :: 0 <= i < |tasks| ==> r[2 * i] == tasks[i].timeTaken && r[2 * i + 1] == tasks[i].waitingTime
  {
    if tasks == [] then []
    else GatherResults(tasks[..|tasks| - 1]) + [tasks[|tasks| - 1].timeTaken, tasks[|tasks| - 1].waitingTime]
  }

  function Pow10(k: nat): (r: nat)
    ensures r >= 1
  {
    if k == 0 then 1 else 10 * Pow10(k - 1)
  }

  /** Decimal digits of a positive number. */
  function Digits(n: nat): (d: nat)
    requires n > 0
    decreases n
  {
    if n < 10 then 1 else 1 + Digits(n / 10)
  }

  /** A positive number has `k` digits exactly when it lies in [10^(k-1), 10^k). */
  lemma {:induction false} DigitsBounds(n: nat)
    requires n > 0
    ensures Pow10(Digits(n) - 1) <= n < Pow10(Digits(n))
    decreases n
  {
    if n >= 10 {
      DigitsBounds(n / 10);
    }
  }

  /** The width of a number in the report: its digit count, and 1 for zero or less. */
  method NumDigs(num: int) returns (digs: nat)
    ensures num <= 0 ==> digs == 1
    ensures num > 0 ==> digs == Digits(num) && Pow10(digs - 1) <= num < Pow10(digs)
  {
    if num <= 0 {
      return 1;
    }
    DigitsBounds(num);
    var n: nat := num;
    digs := 0;
    while n > 0
      invariant n > 0 ==> digs + Digits(n) == Digits(num)
      invariant n == 0 ==> digs == Digits(num)
      decreases n
    {
      n := n / 10;
      digs := digs + 1;
    }
  }
}
