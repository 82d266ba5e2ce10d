/**
 * The completion tracker: turns finished read and write units into a weighted percentage.
 * Each measure contributes two units (one read, one write); a fixed share of the percentage is
 * reserved for the set-up phase that precedes reading and writing.
 */
module CompletionTracking {

  /** One read unit and one write unit per measure. */
  const TASKS_TO_PERFORM_PER_MEASURE: int := 2

  /** Java's `(int)` cast of an exact quotient: division that truncates toward zero. */
  function TruncDiv(a: int, b: int): (q: int)
    requires b > 0
    ensures a >= 0 ==> b * q <= a < b * (q + 1)
    ensures a < 0 ==> b * (q - 1) < a <= b * q
  {
    if a >= 0 then a / b else -((-a) / b)
  }

  /**
   * The percentage reported once `completed` units are done: the set-up share plus the
   * remaining weight scaled by the fraction of units completed, truncated to an int.
   */
  function WeightedPercent(measures: int, base: int, completed: int): int
    requires measures > 0
  {
    var total := measures * TASKS_TO_PERFORM_PER_MEASURE;
    var weight := 100 - base;
    base + TruncDiv(weight * completed, total)
  }

  lemma MulMonotone(w: int, a: int, b: int)
    requires w >= 0 && a <= b
    ensures w * a <= w * b
  {
  }

  /** Dividing a larger non-negative number gives a quotient at least as large. */
  lemma DivMonotone(a: int, b: int, d: int)
    requires 0 <= a <= b && d > 0
    ensures a / d <= b / d
  {
    var qa, qb := a / d, b / d;
    if qa > qb {
      MulMonotone(d, 1, qa - qb);
    }
  }

  /** A quotient and remainder that rebuild `a` are the quotient and remainder of `a`. */
  lemma DivUnique(a: int, t: int, q: int, r: int)
    requires t > 0 && 0 <= r < t && a == t * q + r
    ensures a / t == q
  {
    var k := q - a / t;
    assert t * k == t * q - t * (a / t);
    if k >= 1 {
      MulMonotone(t, 1, k);
    } else if k <= -1 {
      MulMonotone(t, k, -1);
    }
  }

  /** Progress never reports less than the share reserved for set-up. */
  lemma PercentAtLeastBase(measures: int, base: int, completed: int)
    requires measures > 0 && base <= 100 && completed >= 0
    ensures WeightedPercent(measures, base, completed) >= base
  {
    var w := 100 - base;
    MulMonotone(w, 0, completed);
  }

  /** Completing more units never lowers the percentage. */
  lemma PercentMonotone(measures: int, base: int, c1: int, c2: int)
    requires measures > 0 && base <= 100 && 0 <= c1 <= c2
    ensures WeightedPercent(measures, base, c1) <= WeightedPercent(measures, base, c2)
  {
    var w := 100 - base;
    MulMonotone(w, c1, c2);
    MulMonotone(w, 0, c1);
    DivMonotone(w * c1, w * c2, 2 * measures);
  }

  /** While no more units than expected are done, the percentage stays at most 100. */
  lemma PercentAtMost100(measures: int, base: int, completed: int)
    requires measures > 0 && 0 <= base <= 100 && 0 <= completed <= 2 * measures
    ensures WeightedPercent(measures, base, completed) <= 100
  {
    var w := 100 - base;
    var total := 2 * measures;
    MulMonotone(w, completed, total);
    MulMonotone(w, 0, completed);
    DivMonotone(w * completed, w * total, total);
    DivUnique(w * total, total, w, 0);
  }

  /** When every unit of every measure is done, exactly 100 is reported. */
  lemma PercentReaches100(measures: int, base: int)
    requires measures > 0
    ensures WeightedPercent(measures, base, 2 * measures) == 100
  {
    var w := 100 - base;
    var total := 2 * measures;
    if w >= 0 {
      DivUnique(w * total, total, w, 0);
    } else {
      assert -(w * total) == (-w) * total;
      DivUnique((-w) * total, total, -w, 0);
    }
  }

  /**
   * More units than expected push the report past 100: one measure, a 5% set-up share and a
   * third unit report 147.
   */
  lemma PercentOvershoots()
    ensures WeightedPercent(1, 5, 3) == 147
  {
  }

  /**
   * The tracker object. The measure count and the set-up share are fixed at construction;
   * each call records one more completed unit.
   */
  class MerlinExchangeDaoCompletionTracker {
    const numberOfMeasuresToComplete: int
    const percentCompleteBeforeReadAndWrite: int
    var numberCompleted: nat

    constructor (numberOfMeasures: int, percentBeforeReadAndWrite: int)
      ensures numberOfMeasuresToComplete == numberOfMeasures
      ensures percentCompleteBeforeReadAndWrite == percentBeforeReadAndWrite
      ensures numberCompleted == 0
    {
      numberOfMeasuresToComplete := numberOfMeasures;
      percentCompleteBeforeReadAndWrite := percentBeforeReadAndWrite;
      numberCompleted := 0;
    }

    /** The percentage this tracker reports after `completed` units. */
    function PercentAfter(completed: nat): int
      requires numberOfMeasuresToComplete > 0
    {
      WeightedPercent(numberOfMeasuresToComplete, percentCompleteBeforeReadAndWrite, completed)
    }

    /** Records one finished read or write unit and reports the new percentage. */
    method ReadWriteTaskCompleted() returns (percent: int)
      requires numberOfMeasuresToComplete > 0
      modifies this
      ensures numberCompleted == old(numberCompleted) + 1
      ensures percent == PercentAfter(numberCompleted)
    {
      numberCompleted := numberCompleted + 1;
      var totalNumOfTasksToBeCompleted := numberOfMeasuresToComplete * TASKS_TO_PERFORM_PER_MEASURE;
      var weightForReadWriteTasks := 100 - percentCompleteBeforeReadAndWrite;
      var weightedCompletedPercentage := TruncDiv(weightForReadWriteTasks * numberCompleted, totalNumOfTasksToBeCompleted);
      percent := weightedCompletedPercentage + percentCompleteBeforeReadAndWrite;
    }
  }
}
