/**
 * `runConcurrent(tasks, concurrency)`: the tasks are started in successive batches
 * of at most `concurrency`; each batch is awaited as a whole (`Promise.all`) before
 * the next one starts, and a task that rejects contributes `null`. The tasks of one
 * batch run in parallel, but `Promise.all` returns their values in task order, so
 * the results do not depend on completion order and a sequential model is exact.
 */
module Scheduler {
  import opened Wrappers

  /** How a task's promise settles: with a value (possibly `null`), or by rejecting. */
  datatype Settled<T> = Fulfilled(value: Option<T>) | Rejected

  /** What a task contributes once its rejection is caught (index.js:141): a rejection becomes `null`. */
  function CatchNull<T>(s: Settled<T>): Option<T>
  {
    match s
    case Fulfilled(v) => v
    case Rejected => None
  }

  /**
   * How many tasks the inner `for` loop starts when `remaining` tasks are left:
   * `j` runs while `j < concurrency && i < tasks.length`.
   */
  function BatchSize(concurrency: int, remaining: nat): (b: nat)
    ensures b <= remaining
    ensures concurrency >= 1 && remaining >= 1 ==> 1 <= b <= concurrency
    ensures b == 0 <==> concurrency <= 0 || remaining == 0
    ensures concurrency >= 1 ==> b <= concurrency && (b == concurrency || b == remaining)
  {
    if concurrency <= 0 then 0
    else if concurrency < remaining then concurrency
    else remaining
  }

  /** The task indices `lo, lo + 1, …, hi - 1`. */
  function Range(lo: int, hi: int): (r: seq<int>)
    requires lo <= hi
    ensures |r| == hi - lo
    ensures forall k :: 0 <= k < |r| ==> r[k] == lo + k
    decreases hi - lo
  {
    if lo == hi then [] else [lo] + Range(lo + 1, hi)
  }

  /** The batches the loop starts from index `i` on, each as the task indices it holds. */
  function Plan(i: nat, n: nat, concurrency: int): seq<seq<int>>
    requires concurrency >= 1
    decreases n - i
  {
    if i >= n then []
    else
      var next := i + BatchSize(concurrency, n - i);
      [Range(i, next)] + Plan(next, n, concurrency)
  }

  /**
   * Runs the tasks batch by batch. `tasks[k]` is how task `k` settles; the ghost
   * `batches` records the indices of the tasks started in each batch, in order.
   */
  method RunConcurrent<T>(tasks: seq<Settled<T>>, concurrency: int)
    returns (results: seq<Option<T>>, ghost batches: seq<seq<int>>)
    requires concurrency >= 1 || |tasks| == 0
    ensures |results| == |tasks|
    ensures forall k :: 0 <= k < |tasks| ==> results[k] == CatchNull(tasks[k])
    ensures concurrency >= 1 ==> batches == Plan(0, |tasks|, concurrency)
    ensures |tasks| == 0 ==> batches == []
  {
    results := [];
    batches := [];
    var i := 0;
    while i < |tasks|
      invariant 0 <= i <= |tasks|
      invariant |results| == i
      invariant forall k :: 0 <= k < i ==> results[k] == CatchNull(tasks[k])
      invariant concurrency >= 1 ==> batches + Plan(i, |tasks|, concurrency) == Plan(0, |tasks|, concurrency)
      invariant |tasks| == 0 ==> batches == []
    {
      var promises: seq<Option<T>> := [];
      ghost var batch: seq<int> := [];
      ghost var start := i;
      var j := 0;
      while j < concurrency && i < |tasks|
        invariant start <= i <= |tasks| && j == i - start && j <= concurrency
        invariant batch == Range(start, i)
        invariant |promises| == j
        invariant forall k :: 0 <= k < j ==> promises[k] == CatchNull(tasks[start + k])
      {
        var task := tasks[i];
        batch := batch + [i];
        i := i + 1;
        promises := promises + [CatchNull(task)];
        j := j + 1;
      }
      assert i == start + BatchSize(concurrency, |tasks| - start);
      assert Plan(start, |tasks|, concurrency) == [batch] + Plan(i, |tasks|, concurrency);
      results := results + promises;
      batches := batches + [batch];
    }
  }

  /** All the batches of the plan, one after the other. */
  function Flatten(bs: seq<seq<int>>): seq<int>
  {
    if bs == [] then [] else bs[0] + Flatten(bs[1..])
  }

  lemma {:induction false} RangeSplit(lo: int, mid: int, hi: int)
    requires lo <= mid <= hi
    ensures Range(lo, mid) + Range(mid, hi) == Range(lo, hi)
  {
  }

  /** Every task is started exactly once, and in index order. */
  lemma {:induction false} PlanStartsEachTaskOnce(i: nat, n: nat, concurrency: int)
    requires concurrency >= 1 && i <= n
    ensures Flatten(Plan(i, n, concurrency)) == Range(i, n)
    decreases n - i
  {
    if i < n {
      var next := i + BatchSize(concurrency, n - i);
      PlanStartsEachTaskOnce(next, n, concurrency);
      var p := Plan(i, n, concurrency);
      assert p[0] == Range(i, next) && p[1..] == Plan(next, n, concurrency);
      RangeSplit(i, next, n);
    }
  }

  /** Every batch holds between one and `concurrency` tasks, and only the last may hold fewer. */
  lemma {:induction false} PlanBatchSizes(i: nat, n: nat, concurrency: int)
    requires concurrency >= 1
    ensures forall k :: 0 <= k < |Plan(i, n, concurrency)| ==> 1 <= |Plan(i, n, concurrency)[k]| <= concurrency
    ensures forall k :: 0 <= k < |Plan(i, n, concurrency)| - 1 ==> |Plan(i, n, concurrency)[k]| == concurrency
    decreases n - i
  {
    if i < n {
      var next := i + BatchSize(concurrency, n - i);
      PlanBatchSizes(next, n, concurrency);
      var p := Plan(i, n, concurrency);
      assert p == [Range(i, next)] + Plan(next, n, concurrency);
      if next < n {
        assert |Plan(next, n, concurrency)| >= 1;
      }
    }
  }

  /**
   * The number of batches is `ceil((n - i) / concurrency)`: the least `m` with
   * `m * concurrency >= n - i`.
   */
  lemma {:induction false} PlanBatchCount(i: nat, n: nat, concurrency: int)
    requires concurrency >= 1 && i <= n
    ensures |Plan(i, n, concurrency)| * concurrency >= n - i
    ensures |Plan(i, n, concurrency)| == 0 || (|Plan(i, n, concurrency)| - 1) * concurrency < n - i
    decreases n - i
  {
    var c := concurrency;
    if i < n {
      var next := i + BatchSize(c, n - i);
      PlanBatchCount(next, n, c);
      var m := |Plan(next, n, c)|;
      assert |Plan(i, n, c)| == m + 1;
      if n - i > c {
        assert next == i + c;
        FullBatchCount(m, c, n - i);
      } else {
        assert next == n && m == 0;
      }
    }
  }

  /** One full batch of `c` in front of `m` batches for the remaining `d - c` tasks. */
  lemma FullBatchCount(m: nat, c: int, d: int)
    requires c >= 1 && d > c
    requires m * c >= d - c
    requires m == 0 || (m - 1) * c < d - c
    ensures (m + 1) * c >= d && m * c < d
  {
    assert (m + 1) * c == m * c + c;
    assert m >= 1;
    assert (m - 1) * c == m * c - c;
  }

  /** Without `concurrency >= 1` the inner loop starts nothing, so `i` never advances. */
  lemma NoProgressWithoutConcurrency(concurrency: int, remaining: nat)
    requires concurrency <= 0
    ensures BatchSize(concurrency, remaining) == 0
  {
  }
}
