/**
 * The completion percentage shared by the tracker and every chart series:
 * `capacity === 0 ? 0 : Math.round((score / capacity) * 100)`, computed on
 * exact rationals. For a non-negative ratio Math.round rounds halves up.
 */
module Percentages {

  /** 100 * score / capacity rounded to the nearest integer, halves up; 0 when capacity is 0. */
  function Percent(score: nat, capacity: nat): nat {
    if capacity == 0 then 0 else (200 * score + capacity) / (2 * capacity)
  }

  /**
   * Percent is Math.round of the exact ratio: the exact percentage
   * 100 * score / capacity lies in [r - 1/2, r + 1/2).
   */
  lemma PercentRounds(score: nat, capacity: nat)
    ensures capacity == 0 ==> Percent(score, capacity) == 0
    ensures capacity > 0 ==>
      2 * capacity * Percent(score, capacity) <= 200 * score + capacity < 2 * capacity * (Percent(score, capacity) + 1)
  {
  }

  /** The rounded value is the only integer within one half of the exact ratio. */
  lemma PercentIsNearest(score: nat, capacity: nat, k: int)
    requires capacity > 0
    requires 2 * capacity * k <= 200 * score + capacity < 2 * capacity * (k + 1)
    ensures k == Percent(score, capacity)
  {
    var r := Percent(score, capacity);
    PercentRounds(score, capacity);
    if k < r {
      MulMonotone(2 * capacity, k + 1, r);
    } else if k > r {
      MulMonotone(2 * capacity, r + 1, k);
    }
  }

  lemma MulMonotone(c: nat, a: int, b: int)
    requires a <= b
    ensures c * a <= c * b
  {
    assert c * b - c * a == c * (b - a);
  }

  /** A score within capacity gives a percentage of at most 100. */
  lemma PercentAtMost100(score: nat, capacity: nat)
    requires score <= capacity
    ensures Percent(score, capacity) <= 100
  {
    if capacity > 0 {
      PercentIsNearest(score, capacity, Percent(score, capacity));
      var r := Percent(score, capacity);
      if r > 100 {
        MulMonotone(2 * capacity, 101, r);
      }
    }
  }

  /** A full score is 100 percent, an empty one 0 percent. */
  lemma PercentEnds(capacity: nat)
    ensures Percent(0, capacity) == 0
    ensures capacity > 0 ==> Percent(capacity, capacity) == 100
  {
    if capacity > 0 {
      PercentIsNearest(0, capacity, 0);
      PercentIsNearest(capacity, capacity, 100);
    }
  }

  /** More completions never lower the percentage. */
  lemma PercentMonotone(s1: nat, s2: nat, capacity: nat)
    requires s1 <= s2
    ensures Percent(s1, capacity) <= Percent(s2, capacity)
  {
    if capacity > 0 {
      var r1, r2 := Percent(s1, capacity), Percent(s2, capacity);
      PercentRounds(s1, capacity);
      PercentRounds(s2, capacity);
      if r1 > r2 {
        MulMonotone(2 * capacity, r2 + 1, r1);
      }
    }
  }

  /**
   * Below 200 capacity, reaching 100 percent means a full score.
   * From 200 on, rounding reaches 100 early: see PercentRoundsUpToFull.
   */
  lemma PercentFullIff(score: nat, capacity: nat)
    requires 0 < capacity < 200 && score <= capacity
    ensures Percent(score, capacity) == 100 <==> score == capacity
  {
    PercentEnds(capacity);
  }

  /** 199 of 200 (exactly 99.5) and 200 of 201 already round to 100 percent. */
  lemma PercentRoundsUpToFull()
    ensures Percent(199, 200) == 100 && Percent(200, 201) == 100
  {
  }

  /** Worked examples: 3 of 4 is 75 percent, 4 of 4 is 100, and 1 of 8 (12.5) rounds up to 13. */
  lemma PercentExamples()
    ensures Percent(3, 4) == 75 && Percent(4, 4) == 100 && Percent(1, 8) == 13
    ensures Percent(5, 0) == 0
  {
  }
}
