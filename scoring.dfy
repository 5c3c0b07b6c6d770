/**
  Per-word status of a practice session and the session score.

  Both practice engines keep one `{revealed, firstTry}` record per word. The
  score saved at the end of a session is `Math.round(100 * k / n)`, where `k`
  counts the words still marked first-try. Here `Math.round` of the exact
  quotient is the integer nearest to it, ties rounded up.
*/
module Scoring {

  /** `WordStatus` of both engines. */
  datatype Status = Status(revealed: bool, firstTry: bool)

  /** The status every word starts with: hidden, and still a first-try candidate. */
  const Fresh := Status(false, true)

  /** `words.map(() => ({ revealed: false, firstTry: true }))`. */
  function InitialStatuses(n: nat): (r: seq<Status>)
    ensures |r| == n
    ensures forall k :: 0 <= k < n ==> r[k] == Fresh
  {
    seq(n, _ => Fresh)
  }

  /** `statuses.every(status => status.firstTry)`. */
  predicate AllFirstTry(s: seq<Status>): (b: bool)
    ensures b <==> CountFirstTry(s) == |s|
  {
    CountAllIff(s);
    forall k :: 0 <= k < |s| ==> s[k].firstTry
  }

  /** `statuses.filter(status => status.firstTry).length`. */
  function CountFirstTry(s: seq<Status>): (k: nat)
    ensures k <= |s|
  {
    if s == [] then 0 else (if s[0].firstTry then 1 else 0) + CountFirstTry(s[1..])
  }

  /** Every word counts exactly when every word is still first-try. */
  lemma {:induction false} CountAllIff(s: seq<Status>)
    ensures CountFirstTry(s) == |s| <==> forall k :: 0 <= k < |s| ==> s[k].firstTry
  {
    if s != [] {
      CountAllIff(s[1..]);
      assert (forall k :: 0 <= k < |s| ==> s[k].firstTry)
             <==> s[0].firstTry && forall k :: 0 <= k < |s[1..]| ==> s[1..][k].firstTry;
    }
  }

  /** Counting is monotone: a point-wise smaller set of first-try flags counts no more. */
  lemma {:induction false} CountMonotone(s: seq<Status>, t: seq<Status>)
    requires |s| == |t|
    requires forall k :: 0 <= k < |s| ==> (s[k].firstTry ==> t[k].firstTry)
    ensures CountFirstTry(s) <= CountFirstTry(t)
  {
    if s != [] {
      CountMonotone(s[1..], t[1..]);
    }
  }

  /** Replacing one status by one that is no more first-try and no less revealed changes no flag the wrong way. */
  lemma UpdateMonotone(s: seq<Status>, i: nat, st: Status)
    requires i < |s| && (st.firstTry ==> s[i].firstTry) && (s[i].revealed ==> st.revealed)
    ensures forall k :: 0 <= k < |s| ==>
              (s[i := st][k].firstTry ==> s[k].firstTry) && (s[k].revealed ==> s[i := st][k].revealed)
  {
  }

  /**
    `Math.round(num / den)` on the exact quotient: the integer nearest to
    `num / den`, a tie going to the larger one.
  */
  function RoundHalfUp(num: int, den: int): (r: int)
    requires den > 0
    ensures 2 * den * r - den <= 2 * num < 2 * den * r + den
  {
    (2 * num + den) / (2 * den)
  }

  lemma PositiveFactor(a: int, b: int)
    requires a > 0 && a * b > 0
    ensures b > 0
  {
  }

  /** Rounding keeps a quotient that lies between two integers between them. */
  lemma RoundWithin(num: int, den: int, lo: int, hi: int)
    requires den > 0 && den * lo <= num <= den * hi
    ensures lo <= RoundHalfUp(num, den) <= hi
  {
    var r := RoundHalfUp(num, den);
    assert 2 * den * lo <= 2 * num;
    assert 2 * den * (r - lo + 1) == (2 * den * r + den) - 2 * den * lo + den;
    PositiveFactor(2 * den, r - lo + 1);
    assert 2 * num <= 2 * den * hi;
    assert 2 * den * (hi - r + 1) == 2 * den * hi - (2 * den * r - den) + den;
    PositiveFactor(2 * den, hi - r + 1);
  }

  /** The session score, `round(100 * firstTryCount / wordCount)`. */
  function Score(k: nat, n: nat): (r: int)
    requires 0 < n && k <= n
    ensures 2 * n * r - n <= 200 * k < 2 * n * r + n
    ensures 0 <= r <= 100
    ensures k == n ==> r == 100
    ensures k == 0 ==> r == 0
  {
    ScoreFacts(k, n);
    RoundHalfUp(100 * k, n)
  }

  lemma ScoreFacts(k: nat, n: nat)
    requires 0 < n && k <= n
    ensures 0 <= RoundHalfUp(100 * k, n) <= 100
    ensures k == n ==> RoundHalfUp(100 * k, n) == 100
    ensures k == 0 ==> RoundHalfUp(100 * k, n) == 0
  {
    var r := RoundHalfUp(100 * k, n);
    assert n * 0 <= 100 * k <= n * 100;
    RoundWithin(100 * k, n, 0, 100);
    if k == n {
      assert 2 * n * (r - 100) == 2 * n * r - 200 * n;
      NearestZero(n, r - 100);
    }
    if k == 0 {
      NearestZero(n, r);
    }
  }

  /** The only integer within half a unit of zero is zero. */
  lemma NearestZero(d: int, x: int)
    requires d > 0 && -d < 2 * d * x <= d
    ensures x == 0
  {
    assert 2 * d * (1 - x) == 2 * d - 2 * d * x;
    PositiveFactor(2 * d, 1 - x);
    assert 2 * d * (1 + x) == 2 * d + 2 * d * x;
    PositiveFactor(2 * d, 1 + x);
  }

  /** Below 200 words, only a flawless session scores 100. */
  lemma PerfectOnlyIfFlawless(k: nat, n: nat)
    requires 0 < n && k <= n
    ensures n < 200 && Score(k, n) == 100 ==> k == n
  {
    if n < 200 && Score(k, n) == 100 {
      assert 2 * n * 100 - n <= 2 * (100 * k);
    }
  }

  /** From 200 words on, one miss can still round up to 100. */
  lemma LongListRoundsToPerfect()
    ensures Score(399, 400) == 100
  {
  }

  /** More first-try words never lower the score. */
  lemma ScoreMonotone(k1: nat, k2: nat, n: nat)
    requires 0 < n && k1 <= k2 <= n
    ensures Score(k1, n) <= Score(k2, n)
  {
    var r1, r2 := Score(k1, n), Score(k2, n);
    assert 2 * n * r1 - n <= 200 * k1 <= 200 * k2 < 2 * n * r2 + n;
    assert 2 * n * (r2 - r1 + 1) == (2 * n * r2 + n) - (2 * n * r1 - n);
    PositiveFactor(2 * n, r2 - r1 + 1);
  }

  /** The score of a whole status sequence. */
  function ScoreOf(s: seq<Status>): (r: int)
    requires |s| > 0
    ensures 2 * |s| * r - |s| <= 200 * CountFirstTry(s) < 2 * |s| * r + |s|
    ensures 0 <= r <= 100
    ensures AllFirstTry(s) ==> r == 100
    ensures |s| < 200 && r == 100 ==> AllFirstTry(s)
  {
    CountAllIff(s);
    PerfectOnlyIfFlawless(CountFirstTry(s), |s|);
    Score(CountFirstTry(s), |s|)
  }
}
