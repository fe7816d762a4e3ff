/**
 * The points a correct answer earns: `int((1 - elapsed/ttl) * 100)` in the source,
 * with the fraction computed in floating point. Here elapsed time and the
 * time-to-live are naturals in one unit (milliseconds) and the conversion to
 * int truncates toward zero, as Go's float-to-int conversion does.
 */
module Scoring {
  import opened Wrappers

  /** Integer division rounding toward zero (Go's int conversion), not Dafny's Euclidean `/`. */
  function TruncDiv(a: int, b: nat): (q: int)
    requires b > 0
    ensures a >= 0 ==> q * b <= a < (q + 1) * b
    ensures a < 0 ==> (q - 1) * b < a <= q * b
  {
    if a >= 0 then a / b else -((-a) / b)
  }

  /** Points for a correct answer given `elapsed` time units after the question, with deadline `ttl`. */
  function RoundScore(elapsed: nat, ttl: nat): int
    requires ttl > 0
  {
    TruncDiv(100 * (ttl - elapsed), ttl)
  }

  /** Multiplying by a natural keeps the order. */
  lemma MulMonotone(x: int, y: int, b: nat)
    requires x <= y
    ensures x * b <= y * b
  {
    assert y * b - x * b == (y - x) * b;
  }

  /** When q is the floor of a / b, comparing any c with q is comparing c * b with a. */
  lemma FloorCompare(a: int, b: nat, q: int, c: int)
    requires b > 0 && q * b <= a < (q + 1) * b
    ensures c <= q <==> c * b <= a
  {
    if c <= q {
      MulMonotone(c, q, b);
    } else {
      MulMonotone(q + 1, c, b);
    }
  }

  /**
   * Within the deadline the score is the largest integer not above 100 * (1 - elapsed/ttl):
   * it lies in [0, 100], is 100 exactly for an instant answer and 0 exactly when less than
   * one point's worth of time is left.
   */
  lemma RoundScoreInTime(elapsed: nat, ttl: nat)
    requires ttl > 0 && elapsed <= ttl
    ensures RoundScore(elapsed, ttl) * ttl <= 100 * (ttl - elapsed) < (RoundScore(elapsed, ttl) + 1) * ttl
    ensures 0 <= RoundScore(elapsed, ttl) <= 100
    ensures RoundScore(elapsed, ttl) == 100 <==> elapsed == 0
    ensures RoundScore(elapsed, ttl) == 0 <==> 100 * (ttl - elapsed) < ttl
  {
    var q := RoundScore(elapsed, ttl);
    var a := 100 * (ttl - elapsed);
    assert 0 <= a <= 100 * ttl;
    FloorCompare(a, ttl, q, 0);
    FloorCompare(a, ttl, q, 1);
    FloorCompare(a, ttl, q, 100);
    FloorCompare(a, ttl, q, 101);
    if elapsed > 0 {
      assert a < 100 * ttl;
    }
  }

  /** Past the deadline (an answer that won the race against the timer) the score is never positive. */
  lemma RoundScoreLate(elapsed: nat, ttl: nat)
    requires ttl > 0 && elapsed > ttl
    ensures RoundScore(elapsed, ttl) <= 0
  {
  }

  /** Earlier answers never score less than later ones. */
  lemma RoundScoreMonotone(e1: nat, e2: nat, ttl: nat)
    requires ttl > 0 && e1 <= e2
    ensures RoundScore(e2, ttl) <= RoundScore(e1, ttl)
  {
    var a1, a2 := 100 * (ttl - e1), 100 * (ttl - e2);
    var q1, q2 := RoundScore(e1, ttl), RoundScore(e2, ttl);
    if a2 >= 0 {
      FloorCompare(a1, ttl, q1, q2);
    } else if a1 >= 0 {
      FloorCompare(a1, ttl, q1, 0);
      if q2 > 0 {
        MulMonotone(0, q2 - 1, ttl);
      }
    } else if q2 > q1 {
      MulMonotone(q1, q2 - 1, ttl);
    }
  }

  /** `scores[id] += points` on a Go map: a missing entry counts as 0. */
  function AddPoints(scores: map<string, int>, id: string, points: int): (r: map<string, int>)
    ensures r.Keys == scores.Keys + {id}
    ensures r[id] == GetOrZero(scores, id) + points
    ensures forall k :: k in scores && k != id ==> r[k] == scores[k]
  {
    scores[id := GetOrZero(scores, id) + points]
  }
}
