/** Choosing the number of clusters: the search over k by window halving, and the BIC threshold rule. */
module KSearch {

  import opened Powers

  // ---------- The threshold rule ----------

  function MaxOf(s: seq<real>): (m: real)
    requires |s| > 0
    ensures m in s && forall i :: 0 <= i < |s| ==> s[i] <= m
  {
    if |s| == 1 then s[0]
    else
      var m := MaxOf(s[..|s| - 1]);
      assert forall i :: 0 <= i < |s| - 1 ==> s[i] == s[..|s| - 1][i];
      if s[|s| - 1] > m then s[|s| - 1] else m
  }

  function MinOf(s: seq<real>): (m: real)
    requires |s| > 0
    ensures m in s && forall i :: 0 <= i < |s| ==> m <= s[i]
  {
    if |s| == 1 then s[0]
    else
      var m := MinOf(s[..|s| - 1]);
      assert forall i :: 0 <= i < |s| - 1 ==> s[i] == s[..|s| - 1][i];
      if s[|s| - 1] < m then s[|s| - 1] else m
  }

  function Threshold(low: real, high: real, pct: real): real {
    (high - low) * pct + low
  }

  /** r is the first run with the smallest k among those whose score reaches the threshold; -1 if there is none. */
  predicate IsBestRun(kValues: seq<int>, scores: seq<real>, threshold: real, r: int)
    requires |kValues| == |scores|
  {
    if r == -1 then forall i :: 0 <= i < |scores| ==> scores[i] < threshold
    else
      && 0 <= r < |scores|
      && scores[r] >= threshold
      && (forall i :: 0 <= i < |scores| && scores[i] >= threshold ==> kValues[r] <= kValues[i])
      && (forall i :: 0 <= i < r && scores[i] >= threshold ==> kValues[r] < kValues[i])
  }

  lemma BestRunExtends(kValues: seq<int>, scores: seq<real>, threshold: real, i: nat, r: int)
    requires |kValues| == |scores| && i < |scores|
    requires -1 <= r < i && IsBestRun(kValues[..i], scores[..i], threshold, r)
    ensures var next := if scores[i] >= threshold && (r == -1 || kValues[i] < kValues[r]) then i else r;
      IsBestRun(kValues[..i + 1], scores[..i + 1], threshold, next)
  {
    var ks, ss := kValues[..i + 1], scores[..i + 1];
    assert forall j :: 0 <= j < i ==> ks[j] == kValues[..i][j] && ss[j] == scores[..i][j];
    assert ks[i] == kValues[i] && ss[i] == scores[i];
  }

  lemma SingletonRange(x: real)
    ensures MinOf([x]) == MaxOf([x]) == x
  {
  }

  lemma RangeExtends(scores: seq<real>, i: nat)
    requires 0 < i < |scores|
    ensures MaxOf(scores[..i + 1]) == if scores[i] > MaxOf(scores[..i]) then scores[i] else MaxOf(scores[..i])
    ensures MinOf(scores[..i + 1]) == if scores[i] < MinOf(scores[..i]) then scores[i] else MinOf(scores[..i])
  {
    assert scores[..i + 1][..i] == scores[..i];
  }

  method ScoreRange(scores: seq<real>) returns (minBic: real, maxBic: real)
    requires |scores| > 0
    ensures minBic == MinOf(scores) && maxBic == MaxOf(scores)
  {
    minBic, maxBic := scores[0], scores[0];
    assert scores[..1] == [scores[0]];
    SingletonRange(scores[0]);
    hide MinOf, MaxOf;
    for i := 1 to |scores|
      invariant minBic == MinOf(scores[..i]) && maxBic == MaxOf(scores[..i])
    {
      RangeExtends(scores, i);
      if scores[i] > maxBic {
        maxBic := scores[i];
      }
      if scores[i] < minBic {
        minBic := scores[i];
      }
    }
    assert scores[..|scores|] == scores;
  }

  /** Positions of a largest and a smallest of the first n scores. */
  ghost predicate Extremes(scores: seq<real>, n: nat, p: int, q: int) {
    0 <= p < n <= |scores| && 0 <= q < n && forall i :: 0 <= i < n ==> scores[q] <= scores[i] <= scores[p]
  }

  /** Score i lies at least the fraction pct of the way up from score q to score p. */
  ghost predicate AtFraction(scores: seq<real>, p: int, q: int, pct: real, i: int)
    requires 0 <= p < |scores| && 0 <= q < |scores| && 0 <= i < |scores|
  {
    scores[i] - scores[q] >= pct * (scores[p] - scores[q])
  }

  lemma ThresholdMeans(low: real, high: real, pct: real, x: real)
    ensures x >= Threshold(low, high, pct) <==> x - low >= pct * (high - low)
  {
    assert (high - low) * pct == pct * (high - low);
  }

  /** The kept run, said of the scores alone: the first with the smallest k among those far enough up the range. */
  ghost predicate KeepsRun(kValues: seq<int>, scores: seq<real>, pct: real, r: int)
    requires |kValues| == |scores|
  {
    forall p, q :: Extremes(scores, |scores|, p, q) ==>
      if r == -1 then forall i :: 0 <= i < |scores| ==> !AtFraction(scores, p, q, pct, i)
      else
        && 0 <= r < |scores| && AtFraction(scores, p, q, pct, r)
        && (forall i :: 0 <= i < |scores| && AtFraction(scores, p, q, pct, i) ==> kValues[r] <= kValues[i])
        && (forall i :: 0 <= i < r && AtFraction(scores, p, q, pct, i) ==> kValues[r] < kValues[i])
  }

  lemma BestRunIsKept(kValues: seq<int>, scores: seq<real>, pct: real, r: int)
    requires |kValues| == |scores| > 0
    requires IsBestRun(kValues, scores, Threshold(MinOf(scores), MaxOf(scores), pct), r)
    ensures KeepsRun(kValues, scores, pct, r)
  {
    hide Threshold, MinOf, MaxOf;
    forall p, q, i | Extremes(scores, |scores|, p, q) && 0 <= i < |scores|
      ensures AtFraction(scores, p, q, pct, i) <==> scores[i] >= Threshold(MinOf(scores), MaxOf(scores), pct)
    {
      assert scores[q] == MinOf(scores) && scores[p] == MaxOf(scores);
      ThresholdMeans(scores[q], scores[p], pct, scores[i]);
    }
  }

  lemma OneScore(scores: seq<real>, pct: real)
    requires |scores| > 0
    ensures |scores| == 1 ==> Threshold(MinOf(scores), MaxOf(scores), pct) == scores[0]
  {
  }

  /** The run whose clustering is kept. */
  method FindBestRun(kValues: seq<int>, scores: seq<real>, pct: real) returns (bestRun: int)
    requires |kValues| == |scores| > 0
    ensures IsBestRun(kValues, scores, Threshold(MinOf(scores), MaxOf(scores), pct), bestRun)
    ensures KeepsRun(kValues, scores, pct, bestRun)
  {
    hide MinOf, MaxOf, Threshold, KeepsRun;
    OneScore(scores, pct);
    bestRun := 0;
    if |kValues| > 1 {
      var minBic, maxBic := ScoreRange(scores);
      var threshold := Threshold(minBic, maxBic, pct);
      bestRun := -1;
      for i := 0 to |kValues|
        invariant -1 <= bestRun < i
        invariant IsBestRun(kValues[..i], scores[..i], threshold, bestRun)
      {
        BestRunExtends(kValues, scores, threshold, i, bestRun);
        if scores[i] >= threshold && (bestRun == -1 || kValues[i] < kValues[bestRun]) {
          bestRun := i;
        }
      }
      assert kValues[..|kValues|] == kValues && scores[..|scores|] == scores;
    }
    BestRunIsKept(kValues, scores, pct, bestRun);
  }

  /** With the percentage in [0, 1] some run always reaches the threshold. */
  lemma ThresholdIsReached(scores: seq<real>, pct: real)
    requires |scores| > 0 && 0.0 <= pct <= 1.0
    ensures MinOf(scores) <= Threshold(MinOf(scores), MaxOf(scores), pct) <= MaxOf(scores)
  {
    Between(MinOf(scores), MaxOf(scores), pct);
  }

  lemma Between(low: real, high: real, pct: real)
    requires low <= high && 0.0 <= pct <= 1.0
    ensures low <= Threshold(low, high, pct) <= high
  {
    var range := high - low;
    assert 0.0 <= range * pct;
    assert 0.0 <= range * (1.0 - pct);
    assert range * (1.0 - pct) == range - range * pct;
  }

  // ---------- What the right answer is ----------

  /** A score that depends only on k and does not decrease in it. */
  ghost predicate MonotoneScore(score: (nat, int) -> real, maxK: nat) {
    && (forall r: nat, k: int :: score(r, k) == score(0, k))
    && (forall a: int, b: int :: 1 <= a <= b <= maxK ==> score(0, a) <= score(0, b))
  }

  function ScoreThreshold(score: (nat, int) -> real, maxK: nat, pct: real): real {
    Threshold(score(0, 1), score(0, maxK), pct)
  }

  /** k is the least number of clusters whose score reaches the threshold over all of 1..maxK. */
  ghost predicate IsLeastReaching(score: (nat, int) -> real, maxK: nat, pct: real, k: int) {
    && 1 <= k <= maxK
    && score(0, k) >= ScoreThreshold(score, maxK, pct)
    && (forall j :: 1 <= j < k ==> score(0, j) < ScoreThreshold(score, maxK, pct))
  }

  /** A list of runs that probed both ends of 1..maxK, with their scores. */
  ghost predicate ProbesRange(kValues: seq<int>, scores: seq<real>, score: (nat, int) -> real, maxK: nat) {
    && |kValues| == |scores|
    && 1 in kValues && maxK in kValues
    && (forall i :: 0 <= i < |kValues| ==> 1 <= kValues[i] <= maxK && scores[i] == score(0, kValues[i]))
  }

  /** Probing both ends is enough to know the threshold of the whole range. */
  lemma ProbedThreshold(kValues: seq<int>, scores: seq<real>, score: (nat, int) -> real, maxK: nat, pct: real)
    requires MonotoneScore(score, maxK) && ProbesRange(kValues, scores, score, maxK)
    ensures Threshold(MinOf(scores), MaxOf(scores), pct) == ScoreThreshold(score, maxK, pct)
  {
    hide Threshold, MinOf, MaxOf;
    var a :| 0 <= a < |kValues| && kValues[a] == 1;
    var b :| 0 <= b < |kValues| && kValues[b] == maxK;
    assert MinOf(scores) <= scores[a] && scores[b] <= MaxOf(scores);
    var p :| 0 <= p < |scores| && scores[p] == MinOf(scores);
    var q :| 0 <= q < |scores| && scores[q] == MaxOf(scores);
    assert scores[a] <= scores[p] && scores[q] <= scores[b];
  }

  /** A best run over any list that contains the right answer is the right answer. */
  lemma BestRunIsLeastReaching(kValues: seq<int>, scores: seq<real>, score: (nat, int) -> real, maxK: nat, pct: real,
                               k: int, r: int)
    requires MonotoneScore(score, maxK) && ProbesRange(kValues, scores, score, maxK)
    requires IsLeastReaching(score, maxK, pct, k) && k in kValues
    requires IsBestRun(kValues, scores, Threshold(MinOf(scores), MaxOf(scores), pct), r)
    ensures 0 <= r < |kValues| && kValues[r] == k
  {
    hide Threshold, MinOf, MaxOf;
    ProbedThreshold(kValues, scores, score, maxK, pct);
    var i :| 0 <= i < |kValues| && kValues[i] == k;
    assert scores[i] >= ScoreThreshold(score, maxK, pct);
  }

  /** Probing every k of 1..maxK. */
  ghost predicate ProbesAll(kValues: seq<int>, scores: seq<real>, score: (nat, int) -> real, maxK: nat) {
    && |kValues| == |scores| == maxK
    && (forall i :: 0 <= i < maxK ==> kValues[i] == i + 1 && scores[i] == score(0, i + 1))
  }

  // ---------- The search ----------

  /** The search window, and the list of k, after `run` runs. */
  ghost predicate Window(kValues: seq<int>, run: nat, kMin: int, kMax: int, maxK: nat) {
    && 1 <= kMin <= kMax <= maxK
    && |kValues| >= 3 && kValues[0] == 1 && kValues[1] == maxK && kValues[2] == (1 + maxK) / 2
    && run <= |kValues|
    && (run < 3 ==> |kValues| == 3 && kMin == 1 && kMax == maxK)
    && (run >= 3 ==> run + 1 >= |kValues| && (run < |kValues| <==> kMax - kMin > 1))
    && (2 <= run < |kValues| ==> kValues[run] == (kMin + kMax) / 2)
  }

  ghost predicate ProbedValue(kValues: seq<int>, run: nat, k: int) {
    exists i :: 0 <= i < run && i < |kValues| && kValues[i] == k
  }

  /** No k appended by the search repeats an earlier one. */
  ghost predicate NoneAppendedTwice(kValues: seq<int>) {
    forall i, j :: 0 <= j < i < |kValues| && i >= 3 ==> kValues[i] != kValues[j]
  }

  /** Every k is in range; those probed lie outside the open window, whose ends were probed. */
  ghost predicate Probed(kValues: seq<int>, run: nat, kMin: int, kMax: int, maxK: nat) {
    && (forall i :: 0 <= i < |kValues| ==> 1 <= kValues[i] <= maxK)
    && (run >= 2 ==> ProbedValue(kValues, run, kMin) && ProbedValue(kValues, run, kMax))
    && (run >= 2 ==> forall i :: 0 <= i < run && i < |kValues| ==> kValues[i] <= kMin || kMax <= kValues[i])
    && NoneAppendedTwice(kValues)
  }

  /** The window halves with every run, which bounds how often the list grows. */
  ghost predicate Halved(length: nat, run: nat, kMin: int, kMax: int, maxK: nat) {
    && (run >= 2 ==> (kMax - kMin - 1) * Power(2, run - 2) <= maxK - 2)
    && (length > 3 ==> Power(2, length - 3) <= maxK - 2)
  }

  /** The half of the window kept after probing its middle `last`. */
  function KeepMin(kMin: int, last: int, upper: bool): int { if upper then last else kMin }
  function KeepMax(kMax: int, last: int, upper: bool): int { if upper then kMax else last }

  /** The list after that: it grows by the middle of the kept half unless that half is closed. */
  function Grown(kValues: seq<int>, kMin: int, kMax: int): seq<int> {
    if kMax - kMin > 1 then kValues + [(kMin + kMax) / 2] else kValues
  }

  // ---------- What the search asks for next, said of the values and scores alone ----------

  /** The positions of the first largest and the first smallest of the first n scores. */
  ghost predicate FirstExtremes(scores: seq<real>, n: nat, p: int, q: int) {
    && Extremes(scores, n, p, q)
    && (forall i :: 0 <= i < p ==> scores[i] < scores[p])
    && (forall i :: 0 <= i < q ==> scores[q] < scores[i])
  }

  /** h is the smallest of the first n values above k. */
  ghost predicate NextAbove(kValues: seq<int>, n: nat, k: int, h: int) {
    && k < h && ProbedValue(kValues, n, h)
    && forall i :: 0 <= i < n && i < |kValues| ==> kValues[i] <= k || h <= kValues[i]
  }

  /** h is the largest of the first n values below k. */
  ghost predicate NextBelow(kValues: seq<int>, n: nat, k: int, h: int) {
    && h < k && ProbedValue(kValues, n, h)
    && forall i :: 0 <= i < n && i < |kValues| ==> kValues[i] <= h || k <= kValues[i]
  }

  /** After r values the list goes on upwards: half way to the next value above `last`, unless they are neighbours. */
  ghost predicate GoesUp(kValues: seq<int>, r: nat, last: int) {
    && (forall h :: NextAbove(kValues, r, last, h) && h - last > 1 ==> r < |kValues| && kValues[r] == (last + h) / 2)
    && (r < |kValues| ==> exists h :: NextAbove(kValues, r, last, h) && h - last > 1)
  }

  /** After r values the list goes on downwards. */
  ghost predicate GoesDown(kValues: seq<int>, r: nat, last: int) {
    && (forall h :: NextBelow(kValues, r, last, h) && last - h > 1 ==> r < |kValues| && kValues[r] == (last + h) / 2)
    && (r < |kValues| ==> exists h :: NextBelow(kValues, r, last, h) && last - h > 1)
  }

  /**
   * After r runs the search goes up exactly when the largest score came after
   * the smallest one and the last score is below the fraction pct between them.
   */
  ghost predicate FollowsScores(kValues: seq<int>, scores: seq<real>, pct: real, r: nat)
    requires 1 <= r <= |kValues| && r <= |scores|
  {
    forall p, q :: FirstExtremes(scores, r, p, q) ==>
      if p > q && !AtFraction(scores, p, q, pct, r - 1)
      then GoesUp(kValues, r, kValues[r - 1]) else GoesDown(kValues, r, kValues[r - 1])
  }

  /** Every run from the third on decides by its scores. */
  ghost predicate Directed(kValues: seq<int>, scores: seq<real>, pct: real) {
    forall r :: 3 <= r <= |scores| && r <= |kValues| ==> FollowsScores(kValues, scores, pct, r)
  }

  lemma NextAboveKept(kValues: seq<int>, grown: seq<int>, r: nat, k: int, h: int)
    requires kValues <= grown && r <= |kValues|
    ensures NextAbove(kValues, r, k, h) <==> NextAbove(grown, r, k, h)
    ensures NextBelow(kValues, r, k, h) <==> NextBelow(grown, r, k, h)
  {
    assert forall i :: 0 <= i < |kValues| ==> grown[i] == kValues[i];
    assert ProbedValue(kValues, r, h) <==> ProbedValue(grown, r, h);
  }

  lemma DirectionKept(kValues: seq<int>, grown: seq<int>, r: nat, last: int)
    requires kValues <= grown && r < |kValues|
    ensures GoesUp(kValues, r, last) ==> GoesUp(grown, r, last)
    ensures GoesDown(kValues, r, last) ==> GoesDown(grown, r, last)
  {
    hide NextAbove, NextBelow;
    assert grown[r] == kValues[r];
    forall h
      ensures NextAbove(kValues, r, last, h) <==> NextAbove(grown, r, last, h)
      ensures NextBelow(kValues, r, last, h) <==> NextBelow(grown, r, last, h)
    {
      NextAboveKept(kValues, grown, r, last, h);
    }
  }

  lemma ExtremesOfPrefix(scores: seq<real>, after: seq<real>, r: nat, p: int, q: int)
    requires scores <= after && r <= |scores|
    ensures FirstExtremes(after, r, p, q) ==> FirstExtremes(scores, r, p, q)
  {
    assert forall i :: 0 <= i < |scores| ==> after[i] == scores[i];
  }

  lemma FollowsKept(kValues: seq<int>, grown: seq<int>, scores: seq<real>, after: seq<real>, pct: real, r: nat)
    requires kValues <= grown && scores <= after && 1 <= r < |kValues| && r <= |scores|
    requires FollowsScores(kValues, scores, pct, r)
    ensures FollowsScores(grown, after, pct, r)
  {
    hide GoesUp, GoesDown;
    DirectionKept(kValues, grown, r, kValues[r - 1]);
    assert forall i :: 0 <= i < |scores| ==> after[i] == scores[i];
    forall p, q | FirstExtremes(after, r, p, q)
      ensures if p > q && !AtFraction(after, p, q, pct, r - 1)
              then GoesUp(grown, r, grown[r - 1]) else GoesDown(grown, r, grown[r - 1])
    {
      ExtremesOfPrefix(scores, after, r, p, q);
    }
  }

  lemma FirstExtremesUnique(scores: seq<real>, n: nat, p: int, q: int, p': int, q': int)
    requires FirstExtremes(scores, n, p, q) && FirstExtremes(scores, n, p', q')
    ensures p == p' && q == q'
  {
    assert scores[p] == scores[p'] && scores[q] == scores[q'];
  }

  /** A window whose upper end is the next value above `last` goes on upwards. */
  lemma UpperHalf(kValues: seq<int>, run: nat, kMin: int, kMax: int, maxK: nat)
    requires Window(kValues, run, kMin, kMax, maxK) && 2 <= run < |kValues| && Probed(kValues, run, kMin, kMax, maxK)
    ensures GoesUp(Grown(kValues, kValues[run], kMax), run + 1, kValues[run])
  {
    hide NoneAppendedTwice;
    var last, grown, r := kValues[run], Grown(kValues, kValues[run], kMax), run + 1;
    assert r == |kValues| && kMin <= last <= kMax && (last == kMax ==> kMin == kMax);
    assert forall i :: 0 <= i < r ==> grown[i] == kValues[i];
    assert forall i :: 0 <= i < r ==> grown[i] <= last || kMax <= grown[i];
    StillProbed(kValues, grown, run, kMax);
    if last < kMax {
      assert NextAbove(grown, r, last, kMax);
      forall h | NextAbove(grown, r, last, h)
        ensures h == kMax
      {
        NextAboveUnique(grown, r, last, h, kMax);
      }
    }
  }

  lemma NextAboveUnique(kValues: seq<int>, r: nat, last: int, h: int, g: int)
    requires r <= |kValues|
    ensures NextAbove(kValues, r, last, h) && NextAbove(kValues, r, last, g) ==> h == g
    ensures NextBelow(kValues, r, last, h) && NextBelow(kValues, r, last, g) ==> h == g
  {
  }

  lemma LowerHalf(kValues: seq<int>, run: nat, kMin: int, kMax: int, maxK: nat)
    requires Window(kValues, run, kMin, kMax, maxK) && 2 <= run < |kValues| && Probed(kValues, run, kMin, kMax, maxK)
    ensures GoesDown(Grown(kValues, kMin, kValues[run]), run + 1, kValues[run])
  {
    hide NoneAppendedTwice;
    var last, grown, r := kValues[run], Grown(kValues, kMin, kValues[run]), run + 1;
    assert r == |kValues| && kMin <= last <= kMax;
    assert forall i :: 0 <= i < r ==> grown[i] == kValues[i];
    assert forall i :: 0 <= i < r ==> grown[i] <= kMin || last <= grown[i];
    StillProbed(kValues, grown, run, kMin);
    if kMin < last {
      assert NextBelow(grown, r, last, kMin);
      forall h | NextBelow(grown, r, last, h)
        ensures h == kMin
      {
        NextAboveUnique(grown, r, last, h, kMin);
      }
    }
  }

  lemma WindowStep(kValues: seq<int>, run: nat, kMin: int, kMax: int, maxK: nat, upper: bool)
    requires Window(kValues, run, kMin, kMax, maxK) && 2 <= run < |kValues|
    ensures var lo, hi := KeepMin(kMin, kValues[run], upper), KeepMax(kMax, kValues[run], upper);
      Window(Grown(kValues, lo, hi), run + 1, lo, hi, maxK)
  {
  }

  lemma StillProbed(kValues: seq<int>, grown: seq<int>, run: nat, k: int)
    requires ProbedValue(kValues, run, k) && kValues <= grown
    ensures ProbedValue(grown, run + 1, k)
  {
    var i :| 0 <= i < run && i < |kValues| && kValues[i] == k;
    assert grown[i] == k;
  }

  lemma ProbedStep(kValues: seq<int>, run: nat, kMin: int, kMax: int, maxK: nat, upper: bool)
    requires Window(kValues, run, kMin, kMax, maxK) && 2 <= run < |kValues|
    requires Probed(kValues, run, kMin, kMax, maxK)
    ensures var lo, hi := KeepMin(kMin, kValues[run], upper), KeepMax(kMax, kValues[run], upper);
      Probed(Grown(kValues, lo, hi), run + 1, lo, hi, maxK)
  {
    hide ProbedValue, NoneAppendedTwice;
    var last := kValues[run];
    var lo, hi := KeepMin(kMin, last, upper), KeepMax(kMax, last, upper);
    var grown := Grown(kValues, lo, hi);
    assert kMin <= last <= kMax && run + 1 == |kValues|;
    assert kValues <= grown;
    StillProbed(kValues, grown, run, kMin);
    StillProbed(kValues, grown, run, kMax);
    JustProbed(grown, run);
    if |grown| > |kValues| {
      NewValueIsFresh(kValues, lo, hi);
    }
  }

  lemma JustProbed(kValues: seq<int>, run: nat)
    requires run < |kValues|
    ensures ProbedValue(kValues, run + 1, kValues[run])
  {
  }

  lemma NewValueIsFresh(kValues: seq<int>, lo: int, hi: int)
    requires hi - lo > 1 && NoneAppendedTwice(kValues)
    requires forall i :: 0 <= i < |kValues| ==> kValues[i] <= lo || hi <= kValues[i]
    ensures NoneAppendedTwice(Grown(kValues, lo, hi))
  {
  }

  lemma HalvedStep(length: nat, run: nat, kMin: int, kMax: int, maxK: nat, upper: bool)
    requires Halved(length, run, kMin, kMax, maxK) && 2 <= run && length == run + 1
    ensures var lo, hi := KeepMin(kMin, (kMin + kMax) / 2, upper), KeepMax(kMax, (kMin + kMax) / 2, upper);
      Halved(if hi - lo > 1 then length + 1 else length, run + 1, lo, hi, maxK)
  {
    var lo, hi := KeepMin(kMin, (kMin + kMax) / 2, upper), KeepMax(kMax, (kMin + kMax) / 2, upper);
    HalvingBound(kMax - kMin - 1, hi - lo - 1, run, maxK - 2);
    if hi - lo > 1 {
      ScaleUp(1, hi - lo - 1, Power(2, run - 1));
    }
  }

  lemma HalvingBound(before: int, after: int, run: nat, bound: int)
    requires run >= 2 && before * Power(2, run - 2) <= bound && 2 * after <= before
    ensures after * Power(2, run - 1) <= bound
  {
    assert after * Power(2, run - 1) == (2 * after) * Power(2, run - 2);
    ScaleUp(2 * after, before, Power(2, run - 2));
  }

  lemma ScaleUp(a: int, b: int, p: nat)
    requires a <= b
    ensures a * p <= b * p
  {
  }

  /** The positions of the extreme scores the search keeps. */
  ghost predicate ScoresInvariant(scores: seq<real>, kValues: seq<int>, score: (nat, int) -> real, minNdx: nat,
                                  maxNdx: nat)
  {
    && |scores| <= |kValues|
    && (forall i :: 0 <= i < |scores| ==> scores[i] == score(i, kValues[i]))
    && (|scores| == 0 ==> minNdx == maxNdx == 0)
    && (|scores| > 0 ==> minNdx < |scores| && maxNdx < |scores|)
    && (|scores| > 0 ==> forall i :: 0 <= i < |scores| ==> scores[minNdx] <= scores[i] <= scores[maxNdx])
    && (|scores| > 0 ==> forall i :: 0 <= i < maxNdx ==> scores[i] < scores[maxNdx])
    && (|scores| > 0 ==> forall i :: 0 <= i < minNdx ==> scores[minNdx] < scores[i])
  }

  lemma ScoresStep(scores: seq<real>, kValues: seq<int>, score: (nat, int) -> real, minNdx: nat, maxNdx: nat)
    requires ScoresInvariant(scores, kValues, score, minNdx, maxNdx) && |scores| < |kValues|
    ensures var n := |scores|;
      var s := scores + [score(n, kValues[n])];
      var maxNdx' := if s[n] > s[maxNdx] then n else maxNdx;
      var minNdx' := if s[n] < s[minNdx] then n else minNdx;
      ScoresInvariant(s, kValues, score, minNdx', maxNdx')
  {
  }

  lemma ScoresGrow(scores: seq<real>, kValues: seq<int>, grown: seq<int>, score: (nat, int) -> real, minNdx: nat,
                   maxNdx: nat)
    requires ScoresInvariant(scores, kValues, score, minNdx, maxNdx) && kValues <= grown
    ensures ScoresInvariant(scores, grown, score, minNdx, maxNdx)
  {
  }

  /** For a monotone score, the upper end of the window reaches the threshold and the lower end, unless 1, does not. */
  ghost predicate Bracket(score: (nat, int) -> real, maxK: nat, pct: real, kMin: int, kMax: int) {
    && score(0, kMax) >= ScoreThreshold(score, maxK, pct)
    && (kMin == 1 || score(0, kMin) < ScoreThreshold(score, maxK, pct))
  }

  function SearchUpper(scores: seq<real>, minNdx: nat, maxNdx: nat, pct: real): bool
    requires |scores| > 0 && minNdx < |scores| && maxNdx < |scores|
  {
    maxNdx > minNdx && scores[|scores| - 1] < scores[minNdx] + (scores[maxNdx] - scores[minNdx]) * pct
  }

  /** For a monotone score the search turns to the upper half exactly when its last k misses the threshold. */
  lemma DecisionIsRight(scores: seq<real>, kValues: seq<int>, score: (nat, int) -> real, minNdx: nat, maxNdx: nat,
                        maxK: nat, pct: real)
    requires MonotoneScore(score, maxK) && ScoresInvariant(scores, kValues, score, minNdx, maxNdx)
    requires |scores| >= 3 && kValues[0] == 1 && kValues[1] == maxK
    requires forall i :: 0 <= i < |kValues| ==> 1 <= kValues[i] <= maxK
    ensures SearchUpper(scores, minNdx, maxNdx, pct)
       <==> score(0, kValues[|scores| - 1]) < ScoreThreshold(score, maxK, pct)
  {
    assert forall i :: 0 <= i < |scores| ==> scores[i] == score(0, kValues[i]);
    assert forall i :: 0 <= i < |scores| ==> scores[0] <= scores[i] <= scores[1];
    assert minNdx == 0;
    assert maxNdx == if scores[0] < scores[1] then 1 else 0;
    if scores[0] == scores[1] {
      assert (scores[1] - scores[0]) * pct == 0.0;
    }
  }

  lemma BracketStep(score: (nat, int) -> real, maxK: nat, pct: real, kMin: int, kMax: int, last: int)
    requires Bracket(score, maxK, pct, kMin, kMax)
    ensures var upper := score(0, last) < ScoreThreshold(score, maxK, pct);
      Bracket(score, maxK, pct, KeepMin(kMin, last, upper), KeepMax(kMax, last, upper))
  {
  }

  /** When the window has closed, the right answer is one of its ends. */
  lemma ClosedWindowHoldsAnswer(score: (nat, int) -> real, maxK: nat, pct: real, kMin: int, kMax: int)
    requires MonotoneScore(score, maxK) && Bracket(score, maxK, pct, kMin, kMax)
    requires 1 <= kMin <= kMax <= maxK && kMax - kMin <= 1
    ensures IsLeastReaching(score, maxK, pct, kMin) || IsLeastReaching(score, maxK, pct, kMax)
  {
    hide ScoreThreshold;
    if score(0, kMin) >= ScoreThreshold(score, maxK, pct) {
      assert IsLeastReaching(score, maxK, pct, kMin);
    } else {
      assert forall j :: 1 <= j < kMax ==> score(0, j) <= score(0, kMin);
    }
  }

  function FloorLog2(n: nat): nat
    requires n > 0
  {
    if n == 1 then 0 else 1 + FloorLog2(n / 2)
  }

  lemma {:induction false} FloorLog2Bound(h: nat, n: nat)
    requires 0 < n && Power(2, h) <= n
    ensures h <= FloorLog2(n)
  {
    if h > 0 {
      Pow2Positive(h - 1);
      FloorLog2Bound(h - 1, n / 2);
    }
  }

  lemma {:induction false} Pow2Positive(n: nat)
    ensures Power(2, n) >= 1
  {
    if n > 0 {
      Pow2Positive(n - 1);
    }
  }

  /** The logarithm rounded down. */
  lemma {:induction false} FloorLog2Exact(n: nat)
    requires n > 0
    ensures Power(2, FloorLog2(n)) <= n < Power(2, FloorLog2(n) + 1)
  {
    if n > 1 {
      FloorLog2Exact(n / 2);
      PowerNext(2, FloorLog2(n / 2));
      PowerNext(2, FloorLog2(n / 2) + 1);
    }
  }

  /** What the finished search promises of the values of k it clustered for. */
  ghost predicate SearchOutcome(kValues: seq<int>, scores: seq<real>, score: (nat, int) -> real, maxK: nat, pct: real) {
    && |kValues| == |scores| >= 3
    && kValues[0] == 1 && kValues[1] == maxK && kValues[2] == (1 + maxK) / 2
    && (forall i :: 0 <= i < |kValues| ==> 1 <= kValues[i] <= maxK && scores[i] == score(i, kValues[i]))
    && NoneAppendedTwice(kValues) && Directed(kValues, scores, pct)
    && |kValues| <= FloorLog2(maxK) + 3
  }

  lemma WindowFacts(kValues: seq<int>, run: nat, kMin: int, kMax: int, maxK: nat)
    requires Window(kValues, run, kMin, kMax, maxK)
    ensures 1 <= kMin <= kMax <= maxK && |kValues| >= 3 && kValues[0] == 1 && kValues[1] == maxK
    ensures run < 3 ==> |kValues| == 3
    ensures 3 <= run < |kValues| ==> run + 1 == |kValues| && kMax - kMin > 1
    ensures 2 <= run < |kValues| ==> run + 1 == |kValues| && kValues[run] == (kMin + kMax) / 2
  {
  }

  lemma ProbedFacts(kValues: seq<int>, run: nat, kMin: int, kMax: int, maxK: nat)
    requires Probed(kValues, run, kMin, kMax, maxK)
    ensures forall i :: 0 <= i < |kValues| ==> 1 <= kValues[i] <= maxK
  {
  }

  lemma SearchStarts(score: (nat, int) -> real, maxK: nat, pct: real)
    requires maxK >= 1
    ensures SearchInvariant([1, maxK, (maxK + 1) / 2], [], 1, maxK, 0, 0, score, maxK, pct)
  {
    if MonotoneScore(score, maxK) && 0.0 <= pct <= 1.0 {
      Between(score(0, 1), score(0, maxK), pct);
    }
  }

  lemma EarlyRun(kValues: seq<int>, run: nat, kMin: int, kMax: int, maxK: nat)
    requires run < 2 && Window(kValues, run, kMin, kMax, maxK) && Probed(kValues, run, kMin, kMax, maxK)
    requires Halved(|kValues|, run, kMin, kMax, maxK)
    ensures Window(kValues, run + 1, kMin, kMax, maxK) && Probed(kValues, run + 1, kMin, kMax, maxK)
    ensures Halved(|kValues|, run + 1, kMin, kMax, maxK)
  {
    assert run == 1 ==> kValues[0] == kMin && kValues[1] == kMax;
    assert (kMax - kMin - 1) * Power(2, 0) == kMax - kMin - 1;
  }

  lemma SearchEnds(kValues: seq<int>, scores: seq<real>, score: (nat, int) -> real, minNdx: nat, maxNdx: nat,
                   kMin: int, kMax: int, maxK: nat, pct: real)
    requires |scores| == |kValues| && maxK >= 1
    requires SearchInvariant(kValues, scores, kMin, kMax, minNdx, maxNdx, score, maxK, pct)
    ensures SearchOutcome(kValues, scores, score, maxK, pct)
    ensures MonotoneScore(score, maxK) && 0.0 <= pct <= 1.0 ==>
      exists k :: k in kValues && IsLeastReaching(score, maxK, pct, k)
  {
    hide IsLeastReaching, MonotoneScore, Bracket, NoneAppendedTwice, Directed;
    if |kValues| > 3 {
      FloorLog2Bound(|kValues| - 3, maxK);
    }
    if MonotoneScore(score, maxK) && 0.0 <= pct <= 1.0 {
      ClosedWindowHoldsAnswer(score, maxK, pct, kMin, kMax);
      assert kMin in kValues && kMax in kValues;
    }
  }

  /** Everything the loop maintains. */
  ghost predicate SearchInvariant(kValues: seq<int>, scores: seq<real>, kMin: int, kMax: int, minNdx: nat, maxNdx: nat,
                                  score: (nat, int) -> real, maxK: nat, pct: real) {
    var run := |scores|;
    && Window(kValues, run, kMin, kMax, maxK) && Probed(kValues, run, kMin, kMax, maxK)
    && Halved(|kValues|, run, kMin, kMax, maxK)
    && ScoresInvariant(scores, kValues, score, minNdx, maxNdx) && Directed(kValues, scores, pct)
    && (MonotoneScore(score, maxK) && 0.0 <= pct <= 1.0 ==> Bracket(score, maxK, pct, kMin, kMax))
  }

  /** What bounds the rest of the search, besides the runs still pending. */
  ghost function Remaining(run: nat, kMin: int, kMax: int): int {
    if run < 3 then kMax - kMin + 3 - run else kMax - kMin
  }

  lemma SearchBounds(kValues: seq<int>, scores: seq<real>, kMin: int, kMax: int, minNdx: nat, maxNdx: nat,
                     score: (nat, int) -> real, maxK: nat, pct: real)
    requires SearchInvariant(kValues, scores, kMin, kMax, minNdx, maxNdx, score, maxK, pct)
    ensures |scores| <= |kValues| && kMin <= kMax
    ensures if |scores| == 0 then minNdx == maxNdx == 0 else minNdx < |scores| && maxNdx < |scores|
  {
    hide Probed, Halved, MonotoneScore, Bracket, Directed;
  }

  /** The first two runs only record their scores. */
  lemma SearchStepEarly(kValues: seq<int>, scores: seq<real>, kMin: int, kMax: int, minNdx: nat, maxNdx: nat,
                        score: (nat, int) -> real, maxK: nat, pct: real, after: seq<real>, minNdx': nat, maxNdx': nat)
    requires SearchInvariant(kValues, scores, kMin, kMax, minNdx, maxNdx, score, maxK, pct)
    requires |scores| < 2 && |scores| < |kValues|
    requires after == scores + [score(|scores|, kValues[|scores|])]
    requires ScoresInvariant(after, kValues, score, minNdx', maxNdx')
    ensures SearchInvariant(kValues, after, kMin, kMax, minNdx', maxNdx', score, maxK, pct)
    ensures Remaining(|after|, kMin, kMax) < Remaining(|scores|, kMin, kMax)
  {
    hide Window, Probed, Halved, ScoresInvariant, MonotoneScore, Bracket, FollowsScores;
    EarlyRun(kValues, |scores|, kMin, kMax, maxK);
  }

  /** Later runs also halve the window and may append its new middle. */
  lemma SearchStepHalving(kValues: seq<int>, scores: seq<real>, kMin: int, kMax: int, minNdx: nat, maxNdx: nat,
                          score: (nat, int) -> real, maxK: nat, pct: real, after: seq<real>, minNdx': nat, maxNdx': nat)
    requires SearchInvariant(kValues, scores, kMin, kMax, minNdx, maxNdx, score, maxK, pct)
    requires 2 <= |scores| < |kValues|
    requires after == scores + [score(|scores|, kValues[|scores|])]
    requires ScoresInvariant(after, kValues, score, minNdx', maxNdx')
    ensures var upper := SearchUpper(after, minNdx', maxNdx', pct);
      var lo, hi := KeepMin(kMin, kValues[|scores|], upper), KeepMax(kMax, kValues[|scores|], upper);
      && SearchInvariant(Grown(kValues, lo, hi), after, lo, hi, minNdx', maxNdx', score, maxK, pct)
      && Remaining(|after|, lo, hi) < Remaining(|scores|, kMin, kMax)
  {
    hide Window, Probed, Halved, ScoresInvariant, MonotoneScore, Bracket, SearchUpper, IsLeastReaching, Directed;
    var run, last := |scores|, kValues[|scores|];
    ScoresIndices(after, kValues, score, minNdx', maxNdx');
    var upper := SearchUpper(after, minNdx', maxNdx', pct);
    WindowFacts(kValues, run, kMin, kMax, maxK);
    WindowStep(kValues, run, kMin, kMax, maxK, upper);
    ProbedStep(kValues, run, kMin, kMax, maxK, upper);
    HalvedStep(|kValues|, run, kMin, kMax, maxK, upper);
    ScoresGrow(after, kValues, Grown(kValues, KeepMin(kMin, last, upper), KeepMax(kMax, last, upper)), score,
               minNdx', maxNdx');
    DirectedStep(kValues, scores, kMin, kMax, score, maxK, pct, after, minNdx', maxNdx');
    if MonotoneScore(score, maxK) && 0.0 <= pct <= 1.0 {
      ProbedFacts(kValues, run, kMin, kMax, maxK);
      DecisionIsRight(after, kValues, score, minNdx', maxNdx', maxK, pct);
      BracketStep(score, maxK, pct, kMin, kMax, last);
    }
  }

  lemma DirectedStep(kValues: seq<int>, scores: seq<real>, kMin: int, kMax: int, score: (nat, int) -> real, maxK: nat,
                     pct: real, after: seq<real>, minNdx: nat, maxNdx: nat)
    requires Window(kValues, |scores|, kMin, kMax, maxK) && Probed(kValues, |scores|, kMin, kMax, maxK)
    requires 2 <= |scores| < |kValues| && Directed(kValues, scores, pct)
    requires scores <= after && |after| == |scores| + 1 && ScoresInvariant(after, kValues, score, minNdx, maxNdx)
    ensures var upper := SearchUpper(after, minNdx, maxNdx, pct);
      var lo, hi := KeepMin(kMin, kValues[|scores|], upper), KeepMax(kMax, kValues[|scores|], upper);
      Directed(Grown(kValues, lo, hi), after, pct)
  {
    hide Window, Probed, ScoresInvariant, GoesUp, GoesDown, SearchUpper, FollowsScores;
    var run := |scores|;
    ScoresIndices(after, kValues, score, minNdx, maxNdx);
    var upper := SearchUpper(after, minNdx, maxNdx, pct);
    var grown := Grown(kValues, KeepMin(kMin, kValues[run], upper), KeepMax(kMax, kValues[run], upper));
    assert kValues <= grown;
    forall r | 3 <= r <= |after| && r <= |grown|
      ensures FollowsScores(grown, after, pct, r)
    {
      if r <= run {
        FollowsKept(kValues, grown, scores, after, pct, r);
      } else {
        LastRunFollows(kValues, kMin, kMax, score, maxK, pct, after, minNdx, maxNdx);
      }
    }
  }

  lemma LastRunFollows(kValues: seq<int>, kMin: int, kMax: int, score: (nat, int) -> real, maxK: nat, pct: real,
                       after: seq<real>, minNdx: nat, maxNdx: nat)
    requires 3 <= |after| <= |kValues| && ScoresInvariant(after, kValues, score, minNdx, maxNdx)
    requires Window(kValues, |after| - 1, kMin, kMax, maxK) && Probed(kValues, |after| - 1, kMin, kMax, maxK)
    ensures var last, upper := kValues[|after| - 1], SearchUpper(after, minNdx, maxNdx, pct);
      FollowsScores(Grown(kValues, KeepMin(kMin, last, upper), KeepMax(kMax, last, upper)), after, pct, |after|)
  {
    hide Window, Probed, GoesUp, GoesDown;
    var run, last, upper := |after| - 1, kValues[|after| - 1], SearchUpper(after, minNdx, maxNdx, pct);
    WindowFacts(kValues, run, kMin, kMax, maxK);
    UpperHalf(kValues, run, kMin, kMax, maxK);
    LowerHalf(kValues, run, kMin, kMax, maxK);
    var grown := Grown(kValues, KeepMin(kMin, last, upper), KeepMax(kMax, last, upper));
    assert grown[run] == last;
    assert FirstExtremes(after, |after|, maxNdx, minNdx);
    ThresholdMeans(after[minNdx], after[maxNdx], pct, after[run]);
    UpperMeans(after, minNdx, maxNdx, pct);
    forall p, q | FirstExtremes(after, |after|, p, q)
      ensures p == maxNdx && q == minNdx
    {
      FirstExtremesUnique(after, |after|, p, q, maxNdx, minNdx);
    }
  }

  lemma UpperMeans(scores: seq<real>, minNdx: nat, maxNdx: nat, pct: real)
    requires |scores| > 0 && minNdx < |scores| && maxNdx < |scores|
    ensures SearchUpper(scores, minNdx, maxNdx, pct) <==>
            maxNdx > minNdx && !AtFraction(scores, maxNdx, minNdx, pct, |scores| - 1)
  {
    ThresholdMeans(scores[minNdx], scores[maxNdx], pct, scores[|scores| - 1]);
  }

  /**
   * For any scores: an appended value is below the one before it if the
   * largest score so far came no later than the smallest, and otherwise above
   * it exactly when the last score is below the fraction pct between the two.
   */
  lemma AppendedBySide(kValues: seq<int>, scores: seq<real>, pct: real, r: nat, p: int, q: int)
    requires Directed(kValues, scores, pct) && 3 <= r < |kValues| && r <= |scores| && FirstExtremes(scores, r, p, q)
    ensures p <= q ==> kValues[r] < kValues[r - 1]
    ensures p > q ==> (kValues[r] > kValues[r - 1] <==> scores[r - 1] - scores[q] < pct * (scores[p] - scores[q]))
    ensures kValues[r] != kValues[r - 1]
  {
    hide FirstExtremes, NextAbove, NextBelow;
    assert FollowsScores(kValues, scores, pct, r);
    SidesOfLast(kValues, r, kValues[r - 1]);
  }

  /** The list stops growing when the value next to the last one, on the side the scores point to, has been probed. */
  lemma StopsAtNeighbour(kValues: seq<int>, scores: seq<real>, pct: real, p: int, q: int)
    requires Directed(kValues, scores, pct) && |kValues| == |scores| >= 3 && FirstExtremes(scores, |scores|, p, q)
    ensures var n, last := |kValues|, kValues[|kValues| - 1];
      if p > q && scores[n - 1] - scores[q] < pct * (scores[p] - scores[q])
      then forall h :: NextAbove(kValues, n, last, h) ==> h == last + 1
      else forall h :: NextBelow(kValues, n, last, h) ==> h == last - 1
  {
    hide FirstExtremes;
    var n, last := |kValues|, kValues[|kValues| - 1];
    assert FollowsScores(kValues, scores, pct, n);
  }

  lemma SidesOfLast(kValues: seq<int>, r: nat, last: int)
    requires r < |kValues|
    ensures GoesUp(kValues, r, last) ==> kValues[r] > last
    ensures GoesDown(kValues, r, last) ==> kValues[r] < last
  {
  }

  lemma ScoresIndices(scores: seq<real>, kValues: seq<int>, score: (nat, int) -> real, minNdx: nat, maxNdx: nat)
    requires ScoresInvariant(scores, kValues, score, minNdx, maxNdx) && |scores| > 0
    ensures minNdx < |scores| && maxNdx < |scores|
  {
  }

  /** The driver's record of its runs. */
  class Simpoint {
    var kValues: seq<int>
    var bicScores: seq<real>

    /** Clusters for the k values the search asks for; score(run, k) is the BIC score run `run` obtains. */
    method SearchClusterings(maxK: nat, pct: real, score: (nat, int) -> real)
      requires maxK >= 1
      modifies this
      ensures SearchOutcome(kValues, bicScores, score, maxK, pct)
      ensures MonotoneScore(score, maxK) && 0.0 <= pct <= 1.0 ==>
        exists k :: k in kValues && IsLeastReaching(score, maxK, pct, k)
    {
      hide SearchInvariant, ScoresInvariant, SearchOutcome, MonotoneScore, IsLeastReaching;
      var kMax: int, kMin, minNdx: nat, maxNdx: nat := maxK, 1, 0, 0;
      kValues := [kMin, kMax, (kMax + kMin) / 2];
      bicScores := [];
      SearchStarts(score, maxK, pct);
      var run := 0;
      SearchBounds(kValues, bicScores, kMin, kMax, minNdx, maxNdx, score, maxK, pct);
      while run < |kValues|
        invariant |bicScores| == run <= |kValues| && kMin <= kMax
        invariant if run == 0 then minNdx == maxNdx == 0 else minNdx < run && maxNdx < run
        invariant SearchInvariant(kValues, bicScores, kMin, kMax, minNdx, maxNdx, score, maxK, pct)
        decreases Remaining(run, kMin, kMax)
      {
        ghost var before, min0, max0 := bicScores, minNdx, maxNdx;
        var lastK := kValues[run];
        bicScores := bicScores + [score(run, lastK)];
        if bicScores[run] > bicScores[maxNdx] {
          maxNdx := run;
        }
        if bicScores[run] < bicScores[minNdx] {
          minNdx := run;
        }
        ExtremesKept(before, kValues, score, min0, max0, kMin, kMax, maxK, pct);
        if run >= 2 {
          SearchStepHalving(kValues, before, kMin, kMax, min0, max0, score, maxK, pct, bicScores, minNdx, maxNdx);
          var nextK := -1;
          var threshold := bicScores[minNdx] + (bicScores[maxNdx] - bicScores[minNdx]) * pct;
          var searchUpper := if maxNdx > minNdx then bicScores[run] < threshold else false;
          if searchUpper {
            nextK := (lastK + kMax) / 2;
            kMin := lastK;
          } else {
            nextK := (lastK + kMin) / 2;
            kMax := lastK;
          }
          if kMax - kMin > 1 {
            kValues := kValues + [nextK];
          }
        } else {
          SearchStepEarly(kValues, before, kMin, kMax, min0, max0, score, maxK, pct, bicScores, minNdx, maxNdx);
        }
        run := run + 1;
        SearchBounds(kValues, bicScores, kMin, kMax, minNdx, maxNdx, score, maxK, pct);
      }
      SearchEnds(kValues, bicScores, score, minNdx, maxNdx, kMin, kMax, maxK, pct);
    }

    /** The k whose clustering is kept after the search. */
    method ChosenK(maxK: nat, pct: real, score: (nat, int) -> real) returns (k: int)
      requires maxK >= 1
      modifies this
      ensures SearchOutcome(kValues, bicScores, score, maxK, pct)
      ensures exists r :: KeepsRun(kValues, bicScores, pct, r) && k == (if 0 <= r < |kValues| then kValues[r] else -1)
      ensures MonotoneScore(score, maxK) && 0.0 <= pct <= 1.0 ==> IsLeastReaching(score, maxK, pct, k)
    {
      hide KeepsRun, Directed;
      SearchClusterings(maxK, pct, score);
      var bestRun := FindBestRun(kValues, bicScores, pct);
      k := if 0 <= bestRun < |kValues| then kValues[bestRun] else -1;
      if MonotoneScore(score, maxK) && 0.0 <= pct <= 1.0 {
        SearchedBestRun(kValues, bicScores, score, maxK, pct, bestRun);
      }
    }
  }

  lemma ExtremesKept(scores: seq<real>, kValues: seq<int>, score: (nat, int) -> real, minNdx: nat, maxNdx: nat,
                     kMin: int, kMax: int, maxK: nat, pct: real)
    requires SearchInvariant(kValues, scores, kMin, kMax, minNdx, maxNdx, score, maxK, pct) && |scores| < |kValues|
    ensures var n := |scores|;
      var s := scores + [score(n, kValues[n])];
      maxNdx < |s| && minNdx < |s|
      && ScoresInvariant(s, kValues, score,
                         if s[n] < s[minNdx] then n else minNdx, if s[n] > s[maxNdx] then n else maxNdx)
  {
    hide Window, Probed, Halved, MonotoneScore, Bracket, Directed;
    ScoresStep(scores, kValues, score, minNdx, maxNdx);
  }

  lemma RunsDoNotMatter(kValues: seq<int>, score: (nat, int) -> real, maxK: nat)
    requires MonotoneScore(score, maxK)
    ensures forall i: nat :: i < |kValues| ==> score(i, kValues[i]) == score(0, kValues[i])
  {
    forall i: nat | i < |kValues|
      ensures score(i, kValues[i]) == score(0, kValues[i])
    {
      var k := kValues[i];
      assert score(i, k) == score(0, k);
    }
  }

  lemma SearchedBestRun(kValues: seq<int>, scores: seq<real>, score: (nat, int) -> real, maxK: nat, pct: real, r: int)
    requires SearchOutcome(kValues, scores, score, maxK, pct) && MonotoneScore(score, maxK)
    requires exists k :: k in kValues && IsLeastReaching(score, maxK, pct, k)
    requires IsBestRun(kValues, scores, Threshold(MinOf(scores), MaxOf(scores), pct), r)
    ensures 0 <= r < |kValues| && IsLeastReaching(score, maxK, pct, kValues[r])
  {
    hide IsBestRun, Threshold, IsLeastReaching, MinOf, MaxOf, MonotoneScore, NoneAppendedTwice;
    assert forall i: nat :: i < |kValues| ==> score(i, kValues[i]) == score(0, kValues[i]) by {
      RunsDoNotMatter(kValues, score, maxK);
    }
    var k :| k in kValues && IsLeastReaching(score, maxK, pct, k);
    BestRunIsLeastReaching(kValues, scores, score, maxK, pct, k, r);
  }

  /** Window halving and clustering for every k keep the same number of clusters. */
  lemma SearchAgreesWithExhaustive(searched: seq<int>, scores: seq<real>, all: seq<int>, allScores: seq<real>,
                                   score: (nat, int) -> real, maxK: nat, pct: real, r: int, e: int)
    requires MonotoneScore(score, maxK) && maxK >= 1
    requires SearchOutcome(searched, scores, score, maxK, pct) && ProbesAll(all, allScores, score, maxK)
    requires exists k :: k in searched && IsLeastReaching(score, maxK, pct, k)
    requires IsBestRun(searched, scores, Threshold(MinOf(scores), MaxOf(scores), pct), r)
    requires IsBestRun(all, allScores, Threshold(MinOf(allScores), MaxOf(allScores), pct), e)
    ensures 0 <= r < |searched| && 0 <= e < |all| && searched[r] == all[e]
  {
    hide IsBestRun, Threshold, IsLeastReaching, MinOf, MaxOf, MonotoneScore, NoneAppendedTwice;
    assert forall i: nat :: i < |searched| ==> score(i, searched[i]) == score(0, searched[i]) by {
      RunsDoNotMatter(searched, score, maxK);
    }
    var k :| k in searched && IsLeastReaching(score, maxK, pct, k);
    BestRunIsLeastReaching(searched, scores, score, maxK, pct, k, r);
    LeastReachingInRange(score, maxK, pct, k);
    assert all[0] == 1 && all[maxK - 1] == maxK && all[k - 1] == k;
    BestRunIsLeastReaching(all, allScores, score, maxK, pct, k, e);
  }

  lemma LeastReachingInRange(score: (nat, int) -> real, maxK: nat, pct: real, k: int)
    requires IsLeastReaching(score, maxK, pct, k)
    ensures 1 <= k <= maxK
  {
  }
}
