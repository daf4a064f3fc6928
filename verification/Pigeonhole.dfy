/** Counting: how many labellings there are, and how many distinct ones a sequence can hold. */
module Pigeonhole {

  import opened Powers

  predicate Distinct<T(==)>(s: seq<T>) {
    forall i, j :: 0 <= i < j < |s| ==> s[i] != s[j]
  }

  /** Distinct naturals below n are at most n many. */
  lemma {:induction false} DistinctBelow(s: seq<nat>, n: nat)
    requires Distinct(s) && forall i :: 0 <= i < |s| ==> s[i] < n
    ensures |s| <= n
  {
    if |s| > 0 {
      assert s[0] < n;
      if p :| 0 <= p < |s| && s[p] == n - 1 {
        var rest := s[..p] + s[p + 1..];
        assert forall i :: 0 <= i < |rest| ==> rest[i] == s[if i < p then i else i + 1];
        DistinctBelow(rest, n - 1);
      } else {
        DistinctBelow(s, n - 1);
      }
    }
  }

  /** More than n naturals below n: two positions hold the same one. */
  lemma Collision(s: seq<nat>, n: nat) returns (i: nat, j: nat)
    requires |s| > n && forall i :: 0 <= i < |s| ==> s[i] < n
    ensures i < j < |s| && s[i] == s[j]
  {
    if Distinct(s) {
      DistinctBelow(s, n);
      assert false;
    }
    i, j :| 0 <= i < j < |s| && s[i] == s[j];
  }

  /** A labelling read as a number in base k. */
  function Code(s: seq<nat>, k: nat): nat {
    if |s| == 0 then 0 else Code(s[..|s| - 1], k) * k + s[|s| - 1]
  }

  lemma {:induction false} CodeBelowPower(s: seq<nat>, k: nat)
    requires forall i :: 0 <= i < |s| ==> s[i] < k
    ensures Code(s, k) < Power(k, |s|)
  {
    if |s| > 0 {
      var init := s[..|s| - 1];
      CodeBelowPower(init, k);
      PowerNext(k, |init|);
      hide Power;
      DigitBelow(Code(init, k), Power(k, |init|), s[|s| - 1], k);
    }
  }

  lemma DigitBelow(a: nat, b: nat, x: nat, k: nat)
    requires a < b && x < k
    ensures a * k + x < b * k
  {
    MulMonotone(a + 1, b, k);
  }

  lemma MulMonotone(a: nat, b: nat, k: nat)
    requires a <= b
    ensures a * k <= b * k
  {
  }

  lemma DigitsUnique(a: nat, x: nat, b: nat, y: nat, k: nat)
    requires x < k && y < k && a * k + x == b * k + y
    ensures a == b && x == y
  {
    if a < b {
      MulMonotone(a + 1, b, k);
    } else if b < a {
      MulMonotone(b + 1, a, k);
    }
  }

  lemma {:induction false} CodeInjective(s: seq<nat>, t: seq<nat>, k: nat)
    requires |s| == |t| && Code(s, k) == Code(t, k)
    requires forall i :: 0 <= i < |s| ==> s[i] < k && t[i] < k
    ensures s == t
  {
    if |s| > 0 {
      var m := |s| - 1;
      DigitsUnique(Code(s[..m], k), s[m], Code(t[..m], k), t[m], k);
      CodeInjective(s[..m], t[..m], k);
      assert s == s[..m] + [s[m]] && t == t[..m] + [t[m]];
    }
  }

  /** Distinct labellings of n points with k labels are at most k^n many. */
  lemma DistinctLabellings(labellings: seq<seq<nat>>, n: nat, k: nat)
    requires Distinct(labellings)
    requires forall t :: 0 <= t < |labellings| ==> |labellings[t]| == n
    requires forall t, i :: 0 <= t < |labellings| && 0 <= i < n ==> labellings[t][i] < k
    ensures |labellings| <= Power(k, n)
  {
    var codes := seq(|labellings|, t requires 0 <= t < |labellings| => Code(labellings[t], k));
    forall t | 0 <= t < |codes|
      ensures codes[t] < Power(k, n)
    {
      CodeBelowPower(labellings[t], k);
    }
    forall t, u | 0 <= t < u < |codes|
      ensures codes[t] != codes[u]
    {
      if codes[t] == codes[u] {
        CodeInjective(labellings[t], labellings[u], k);
      }
    }
    DistinctBelow(codes, Power(k, n));
  }
}
