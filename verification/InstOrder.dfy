/** Instruction records and their stable order by sequence number. */
module InstOrder {

  /**
   * The fields of an instruction record that queueing and filtering look at:
   * sequence number, fetch tick, retire tick, the largest tick of the lines
   * behind the fetch line, and the text that is printed.
   */
  datatype Inst = Inst(sn: int, fetch: int, retire: int, lastTick: int, text: string)

  predicate Sorted(s: seq<Inst>) {
    forall i, j :: 0 <= i < j < |s| ==> s[i].sn <= s[j].sn
  }

  /** Places x behind every instruction with the same or a smaller number. */
  function Insert(s: seq<Inst>, x: Inst): (r: seq<Inst>)
    ensures |r| == |s| + 1
  {
    if |s| == 0 || s[|s| - 1].sn <= x.sn then s + [x]
    else Insert(s[..|s| - 1], x) + [s[|s| - 1]]
  }

  /** The stable sort by sequence number. */
  function SortBySn(s: seq<Inst>): (r: seq<Inst>)
    ensures |r| == |s|
  {
    if |s| == 0 then [] else Insert(SortBySn(s[..|s| - 1]), s[|s| - 1])
  }

  lemma SortNext(s: seq<Inst>, x: Inst)
    ensures SortBySn(s + [x]) == Insert(SortBySn(s), x)
  {
    assert (s + [x])[..|s|] == s;
  }

  lemma {:induction false} InsertBounded(s: seq<Inst>, x: Inst, hi: int)
    requires x.sn <= hi && forall i :: 0 <= i < |s| ==> s[i].sn <= hi
    ensures forall i :: 0 <= i < |Insert(s, x)| ==> Insert(s, x)[i].sn <= hi
  {
    if |s| > 0 && s[|s| - 1].sn > x.sn {
      InsertBounded(s[..|s| - 1], x, hi);
    }
  }

  lemma {:induction false} InsertSorted(s: seq<Inst>, x: Inst)
    requires Sorted(s)
    ensures Sorted(Insert(s, x))
  {
    if |s| > 0 && s[|s| - 1].sn > x.sn {
      var init, last := s[..|s| - 1], s[|s| - 1];
      InsertSorted(init, x);
      InsertBounded(init, x, last.sn);
    }
  }

  lemma {:induction false} InsertAddsOne(s: seq<Inst>, x: Inst)
    ensures multiset(Insert(s, x)) == multiset(s) + multiset{x}
  {
    if |s| > 0 && s[|s| - 1].sn > x.sn {
      var init, last := s[..|s| - 1], s[|s| - 1];
      InsertAddsOne(init, x);
      assert s == init + [last];
    }
  }

  /** Sorting orders the instructions and neither loses nor duplicates any. */
  lemma {:induction false} SortIsSorted(s: seq<Inst>)
    ensures Sorted(SortBySn(s)) && multiset(SortBySn(s)) == multiset(s)
  {
    if |s| > 0 {
      var init, x := s[..|s| - 1], s[|s| - 1];
      assert s == init + [x];
      SortIsSorted(init);
      SortNext(init, x);
      hide SortBySn, Insert;
      InsertSorted(SortBySn(init), x);
      InsertAddsOne(SortBySn(init), x);
    }
  }

  // ---------- Instructions of equal number ----------

  /** The instructions with one sequence number, in order. */
  function WithSn(s: seq<Inst>, sn: int): seq<Inst> {
    if |s| == 0 then []
    else
      var before := WithSn(s[..|s| - 1], sn);
      if s[|s| - 1].sn == sn then before + [s[|s| - 1]] else before
  }

  lemma WithSnNext(s: seq<Inst>, x: Inst, sn: int)
    ensures WithSn(s + [x], sn) == if x.sn == sn then WithSn(s, sn) + [x] else WithSn(s, sn)
  {
    assert (s + [x])[..|s|] == s;
  }

  lemma {:induction false} WithSnConcat(s: seq<Inst>, t: seq<Inst>, sn: int)
    ensures WithSn(s + t, sn) == WithSn(s, sn) + WithSn(t, sn)
  {
    if |t| == 0 {
      assert s + t == s;
    } else {
      var init, x := t[..|t| - 1], t[|t| - 1];
      WithSnConcat(s, init, sn);
      assert s + t == (s + init) + [x];
      WithSnNext(s + init, x, sn);
    }
  }

  lemma {:induction false} InsertStable(s: seq<Inst>, x: Inst, sn: int)
    requires Sorted(s)
    ensures WithSn(Insert(s, x), sn) == if x.sn == sn then WithSn(s, sn) + [x] else WithSn(s, sn)
  {
    if |s| == 0 || s[|s| - 1].sn <= x.sn {
      WithSnNext(s, x, sn);
    } else {
      var init, last := s[..|s| - 1], s[|s| - 1];
      InsertStable(init, x, sn);
      WithSnNext(Insert(init, x), last, sn);
    }
  }

  /** Sorting keeps instructions of equal number in their order of arrival. */
  lemma {:induction false} SortIsStable(s: seq<Inst>, sn: int)
    ensures WithSn(SortBySn(s), sn) == WithSn(s, sn)
  {
    if |s| > 0 {
      var init, x := s[..|s| - 1], s[|s| - 1];
      assert s == init + [x];
      SortIsStable(init, sn);
      SortIsSorted(init);
      SortNext(init, x);
      InsertStable(SortBySn(init), x, sn);
      WithSnNext(init, x, sn);
    }
  }

  /** The largest number of a sorted sequence is the last one. */
  lemma LastOfClass(s: seq<Inst>, sn: int)
    requires Sorted(s) && |WithSn(s, sn)| > 0
    ensures |s| > 0 && s[|s| - 1].sn >= sn
    ensures s[|s| - 1].sn == sn ==> WithSn(s, sn)[|WithSn(s, sn)| - 1] == s[|s| - 1]
  {
    ClassMember(s, sn);
  }

  lemma {:induction false} ClassMember(s: seq<Inst>, sn: int)
    requires |WithSn(s, sn)| > 0
    ensures exists i :: 0 <= i < |s| && s[i].sn == sn
  {
    if s[|s| - 1].sn != sn {
      ClassMember(s[..|s| - 1], sn);
      var i :| 0 <= i < |s| - 1 && s[..|s| - 1][i].sn == sn;
      assert s[i].sn == sn;
    }
  }

  /** Two sequences hold the same instructions of every number in the same order. */
  ghost predicate SameClasses(s: seq<Inst>, t: seq<Inst>) {
    forall sn :: WithSn(s, sn) == WithSn(t, sn)
  }

  lemma LastsAgree(s: seq<Inst>, t: seq<Inst>)
    requires Sorted(s) && Sorted(t) && SameClasses(s, t) && |s| > 0
    ensures |t| > 0 && s[|s| - 1] == t[|t| - 1]
  {
    var sn := s[|s| - 1].sn;
    assert WithSn(s, sn) == WithSn(t, sn);
    LastOfClass(s, sn);
    LastOfClass(t, sn);
    var tn := t[|t| - 1].sn;
    assert WithSn(s, tn) == WithSn(t, tn);
    LastOfClass(t, tn);
    LastOfClass(s, tn);
  }

  /** The stable order is unique: sorted sequences with the same classes are equal. */
  lemma {:induction false} StableOrderUnique(s: seq<Inst>, t: seq<Inst>)
    requires Sorted(s) && Sorted(t) && SameClasses(s, t)
    ensures s == t
  {
    if |s| == 0 {
      if |t| > 0 {
        LastsAgree(t, s);
      }
    } else {
      LastsAgree(s, t);
      var a, b, x := s[..|s| - 1], t[..|t| - 1], s[|s| - 1];
      assert s == a + [x] && t == b + [x];
      forall sn
        ensures WithSn(a, sn) == WithSn(b, sn)
      {
        assert WithSn(s, sn) == WithSn(t, sn);
        WithSnNext(a, x, sn);
        WithSnNext(b, x, sn);
        SameInit(WithSn(a, sn), WithSn(b, sn), x);
      }
      StableOrderUnique(a, b);
    }
  }

  lemma SameInit(a: seq<Inst>, b: seq<Inst>, x: Inst)
    ensures a + [x] == b + [x] ==> a == b
  {
    assert (a + [x])[..|a + [x]| - 1] == a && (b + [x])[..|b + [x]| - 1] == b;
  }

  lemma SortOfSorted(s: seq<Inst>)
    requires Sorted(s)
    ensures SortBySn(s) == s
  {
    hide SortBySn, WithSn, Sorted;
    SortIsSorted(s);
    forall sn
      ensures WithSn(SortBySn(s), sn) == WithSn(s, sn)
    {
      SortIsStable(s, sn);
    }
    StableOrderUnique(SortBySn(s), s);
  }

  // ---------- The largest instructions ----------

  /** What an insertion leaves among the last elements depends only on those elements. */
  lemma {:induction false} InsertTail(a: seq<Inst>, s: seq<Inst>, x: Inst)
    ensures Insert(a + s, x)[|a| + 1..] == Insert(s, x)[1..]
  {
    if |s| > 0 {
      var init, last := s[..|s| - 1], s[|s| - 1];
      if last.sn <= x.sn {
        assert (a + s + [x])[|a| + 1..] == (s + [x])[1..];
      } else {
        assert (a + s)[..|a + s| - 1] == a + init;
        InsertTail(a, init, x);
        var r, u := Insert(a + init, x), Insert(init, x);
        assert (r + [last])[|a| + 1..] == r[|a| + 1..] + [last];
        assert (u + [last])[1..] == u[1..] + [last];
      }
    }
  }

  /** The last n elements. */
  function Last(s: seq<Inst>, n: nat): seq<Inst> {
    if n <= |s| then s[|s| - n..] else s
  }

  /** Sequences with the same n last elements have the same n last elements after an insertion. */
  lemma InsertKeepsLast(s: seq<Inst>, t: seq<Inst>, n: nat, x: Inst)
    requires n <= |s| && n <= |t| && Last(s, n) == Last(t, n)
    ensures Last(Insert(s, x), n) == Last(Insert(t, x), n)
  {
    hide Insert;
    LastAfterInsert(s, n, x);
    LastAfterInsert(t, n, x);
  }

  lemma LastAfterInsert(s: seq<Inst>, n: nat, x: Inst)
    requires n <= |s|
    ensures Last(Insert(s, x), n) == Insert(Last(s, n), x)[1..]
  {
    hide Insert;
    var a, u := s[..|s| - n], Last(s, n);
    assert s == a + u;
    InsertTail(a, u, x);
  }

  lemma SortedParts(s: seq<Inst>, m: nat)
    requires Sorted(s) && m <= |s|
    ensures Sorted(s[..m]) && Sorted(s[m..]) && s == s[..m] + s[m..]
  {
  }
}
