/**
 * The learning constants and the review-interval band table.  The source keeps
 * intervals in hours (0.5, 4, 24, 72, 168); here they are exact minutes.
 */
module LearningConfig {

  /** Knowledge change for a right answer and for a wrong one, and the clamp bounds. */
  const CorrectAnswerBoost: int := 15
  const IncorrectAnswerPenalty: int := 10
  const MinKnowledge: int := 0
  const MaxKnowledge: int := 100

  /** Review frequency of a freshly created user, in minutes. */
  const DefaultIntervalMinutes: int := 30

  /** One row of the interval table: scores `lo..hi` (inclusive) are reviewed every `minutes`. */
  datatype Band = Band(lo: int, hi: int, minutes: nat)

  predicate InBand(b: Band, k: int) {
    b.lo <= k <= b.hi
  }

  /** The table in the order the source's dictionary lists it. */
  const ReviewIntervals: seq<Band> := [
    Band(0, 20, 30),
    Band(21, 50, 4 * 60),
    Band(51, 70, 24 * 60),
    Band(71, 89, 72 * 60),
    Band(90, 100, 168 * 60)
  ]

  /** The interval returned when no band contains the score. */
  const FallbackMinutes: nat := 168 * 60

  /** The loop over the table with its early return: the first band containing `k` wins. */
  function FirstMatch(bands: seq<Band>, k: int): (r: nat)
    ensures (exists i :: 0 <= i < |bands| && InBand(bands[i], k)
                        && r == bands[i].minutes
                        && forall j :: 0 <= j < i ==> !InBand(bands[j], k))
         || (r == FallbackMinutes && forall i :: 0 <= i < |bands| ==> !InBand(bands[i], k))
  {
    if |bands| == 0 then FallbackMinutes
    else if InBand(bands[0], k) then bands[0].minutes
    else
      var r := FirstMatch(bands[1..], k);
      assert forall i :: 0 < i < |bands| ==> bands[i] == bands[1..][i - 1];
      r
  }

  /** `get_review_interval`, in minutes: always a positive duration. */
  function ReviewIntervalMinutes(k: int): (r: nat)
    ensures r > 0
  {
    FirstMatch(ReviewIntervals, k)
  }

  /** Some band of the table contains `k`. */
  ghost predicate Covered(k: int) {
    exists i :: 0 <= i < |ReviewIntervals| && InBand(ReviewIntervals[i], k)
  }

  /** No score lies in two bands, and every score in 0..100 lies in one. */
  lemma BandsPartitionScores()
    ensures forall i, j, k :: 0 <= i < j < |ReviewIntervals| && InBand(ReviewIntervals[i], k)
                              ==> !InBand(ReviewIntervals[j], k)
    ensures forall k :: MinKnowledge <= k <= MaxKnowledge ==> Covered(k)
  {
    forall k | MinKnowledge <= k <= MaxKnowledge
      ensures Covered(k)
    {
      var i := if k <= 20 then 0 else if k <= 50 then 1 else if k <= 70 then 2 else if k <= 89 then 3 else 4;
      assert InBand(ReviewIntervals[i], k);
    }
  }

  /**
   * Because the bands are disjoint, the order of the table does not matter:
   * the interval is the minutes of ANY band that contains the score.
   */
  lemma {:induction false} IntervalIsAnyMatchingBand(k: int, i: nat)
    requires i < |ReviewIntervals| && InBand(ReviewIntervals[i], k)
    ensures ReviewIntervalMinutes(k) == ReviewIntervals[i].minutes
  {
    BandsPartitionScores();
  }

  /** The interval by score band, and the fallback for scores outside 0..100. */
  lemma {:induction false} ReviewIntervalByBand(k: int)
    ensures 0 <= k <= 20 ==> ReviewIntervalMinutes(k) == 30
    ensures 21 <= k <= 50 ==> ReviewIntervalMinutes(k) == 240
    ensures 51 <= k <= 70 ==> ReviewIntervalMinutes(k) == 1440
    ensures 71 <= k <= 89 ==> ReviewIntervalMinutes(k) == 4320
    ensures 90 <= k <= 100 ==> ReviewIntervalMinutes(k) == 10080
    ensures (k < 0 || k > 100) ==> ReviewIntervalMinutes(k) == FallbackMinutes
  {
    if 0 <= k <= 100 {
      var i := if k <= 20 then 0 else if k <= 50 then 1 else if k <= 70 then 2 else if k <= 89 then 3 else 4;
      IntervalIsAnyMatchingBand(k, i);
    }
  }

  /** Higher knowledge never gives a shorter interval, for every score from 0 upward. */
  lemma {:induction false} ReviewIntervalMonotone(k1: int, k2: int)
    requires 0 <= k1 <= k2
    ensures ReviewIntervalMinutes(k1) <= ReviewIntervalMinutes(k2)
  {
    ReviewIntervalByBand(k1);
    ReviewIntervalByBand(k2);
  }
}
