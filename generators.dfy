/**
 * How many generator jobs the builder starts and which numbers they get:
 * the choice of the job count from the number of processors, and
 * `newgeneratorJobs`, which numbers a single job 0 and otherwise counts
 * down from the job count to 1.
 */
module Generators {
  import opened Sequences

  /** `count, count - 1, ..., 1`. */
  function Countdown(count: int): (r: seq<int>)
    ensures |r| == if count > 0 then count else 0
    ensures forall i :: 0 <= i < |r| ==> r[i] == count - i
    decreases count
  {
    if count <= 0 then [] else [count] + Countdown(count - 1)
  }

  /** The numbers of the jobs `newgeneratorJobs(count)` creates, in creation order. */
  function GeneratorNumbers(count: int): seq<int>
  {
    if count < 1 then []
    else if count == 1 then [0]
    else Countdown(count)
  }

  /**
   * The job count chosen before the walk starts: one job when the composer
   * cannot generate in parallel, otherwise two per processor, capped by the
   * number of configurations when the current configurations are built.
   */
  function JobCount(parallel: bool, allCurrent: bool, processors: int, configurationNumber: int): int
  {
    var jobs := processors * 2;
    if !parallel then 1
    else if !allCurrent then jobs
    else if configurationNumber < jobs then configurationNumber
    else jobs
  }

  /**
   * `newgeneratorJobs(count)` creates `count` jobs (none for a count below
   * one), all with different numbers: a single job is number 0, otherwise
   * the numbers are exactly 1 to `count`, in decreasing order.
   */
  lemma GeneratorNumbersAreDistinct(count: int)
    ensures var r := GeneratorNumbers(count);
            && |r| == (if count > 0 then count else 0)
            && NoDuplicates(r)
            && (count == 1 ==> r == [0])
            && (count > 1 ==> (forall n :: n in r <==> 1 <= n <= count))
            && (forall i, j :: 0 <= i < j < |r| ==> r[i] > r[j])
  {
    var r := GeneratorNumbers(count);
    if count > 1 {
      forall n | 1 <= n <= count ensures n in r {
        assert r[count - n] == n;
      }
    }
  }

  /** Building the current configurations never starts more jobs than there are configurations. */
  lemma JobsBoundedByConfigurations(allCurrent: bool, processors: int, configurationNumber: int)
    requires allCurrent
    ensures |GeneratorNumbers(JobCount(true, allCurrent, processors, configurationNumber))| <= (if configurationNumber > 0 then configurationNumber else 0)
    ensures processors >= 1 && configurationNumber >= 1 ==> |GeneratorNumbers(JobCount(true, allCurrent, processors, configurationNumber))| >= 1
  {
    GeneratorNumbersAreDistinct(JobCount(true, allCurrent, processors, configurationNumber));
  }
}
