/** The pipeline viewer's print queue: a bounded buffer that turns an almost ordered trace into an ordered one. */
module PipeView {
  import opened InstOrder

  // ---------- Bounds ----------

  /** The bounds given on the command line; zero, or a negative end, switches a bound off. */
  datatype Bounds = Bounds(snStart: nat, snStop: int, tickStart: nat, tickStop: int, tickDrift: int,
                           onlyCommitted: bool)

  /** No bounds at all. */
  const UNBOUNDED := Bounds(0, 0, 0, 0, 0, false)

  /** Is the instruction inside the requested bounds? */
  predicate Printable(b: Bounds, inst: Inst) {
    && !(b.snStart > 0 && inst.sn < b.snStart)
    && !(b.snStop > 0 && inst.sn > b.snStop)
    && !(b.tickStart > 0 && inst.fetch < b.tickStart)
    && !(b.tickStop > 0 && inst.fetch > b.tickStop)
    && !(b.onlyCommitted && inst.retire == 0)
  }

  function Filter(b: Bounds, s: seq<Inst>): seq<Inst> {
    if |s| == 0 then []
    else
      var before := Filter(b, s[..|s| - 1]);
      if Printable(b, s[|s| - 1]) then before + [s[|s| - 1]] else before
  }

  lemma FilterNext(b: Bounds, s: seq<Inst>, x: Inst)
    ensures Filter(b, s + [x]) == if Printable(b, x) then Filter(b, s) + [x] else Filter(b, s)
  {
    assert (s + [x])[..|s|] == s;
  }

  lemma {:induction false} FilterConcat(b: Bounds, s: seq<Inst>, t: seq<Inst>)
    ensures Filter(b, s + t) == Filter(b, s) + Filter(b, t)
  {
    if |t| == 0 {
      assert s + t == s;
    } else {
      var init, x := t[..|t| - 1], t[|t| - 1];
      FilterConcat(b, s, init);
      assert s + t == (s + init) + [x];
      FilterNext(b, s + init, x);
    }
  }

  lemma {:induction false} FilterUnbounded(s: seq<Inst>)
    ensures Filter(UNBOUNDED, s) == s
  {
    if |s| > 0 {
      FilterUnbounded(s[..|s| - 1]);
    }
  }

  /** Nothing printable, nothing printed. */
  lemma {:induction false} FilterEmpty(b: Bounds, s: seq<Inst>)
    ensures Filter(b, s) == [] <==> forall i :: 0 <= i < |s| ==> !Printable(b, s[i])
  {
    if |s| > 0 {
      var init := s[..|s| - 1];
      FilterEmpty(b, init);
      assert forall i :: 0 <= i < |init| ==> init[i] == s[i];
    }
  }

  lemma {:induction false} FilterMembers(b: Bounds, s: seq<Inst>, x: Inst)
    ensures x in Filter(b, s) <==> x in s && Printable(b, x)
  {
    if |s| > 0 {
      FilterMembers(b, s[..|s| - 1], x);
      assert s == s[..|s| - 1] + [s[|s| - 1]];
    }
  }

  /** What the bounds ask for, both ends included: numbers, fetch ticks and, if so wanted, retirement. */
  ghost predicate Requested(b: Bounds, inst: Inst) {
    && (b.snStart > 0 ==> b.snStart <= inst.sn)
    && (b.snStop > 0 ==> inst.sn <= b.snStop)
    && (b.tickStart > 0 ==> b.tickStart <= inst.fetch)
    && (b.tickStop > 0 ==> inst.fetch <= b.tickStop)
    && (b.onlyCommitted ==> inst.retire != 0)
  }

  /** Filtering keeps each instruction as often as it occurs if the bounds ask for it, and drops it otherwise. */
  lemma {:induction false} FilterCounts(b: Bounds, s: seq<Inst>, x: Inst)
    ensures multiset(Filter(b, s))[x] == if Requested(b, x) then multiset(s)[x] else 0
  {
    if |s| > 0 {
      var init, last := s[..|s| - 1], s[|s| - 1];
      FilterCounts(b, init, x);
      assert s == init + [last];
      assert Requested(b, last) <==> Printable(b, last);
    }
  }

  /** Filtering keeps the order of every class. */
  lemma {:induction false} FilterWithSn(b: Bounds, s: seq<Inst>, sn: int)
    ensures WithSn(Filter(b, s), sn) == Filter(b, WithSn(s, sn))
  {
    if |s| > 0 {
      var init, x := s[..|s| - 1], s[|s| - 1];
      assert s == init + [x];
      FilterWithSn(b, init, sn);
      FilterNext(b, init, x);
      WithSnNext(init, x, sn);
      WithSnNext(Filter(b, init), x, sn);
      FilterNext(b, WithSn(init, sn), x);
    }
  }

  /** Every printable instruction of s has a number no larger than any printable one of t. */
  ghost predicate PrintableBefore(b: Bounds, s: seq<Inst>, t: seq<Inst>) {
    forall y, x :: y in s && x in t && Printable(b, y) && Printable(b, x) ==> y.sn <= x.sn
  }

  lemma {:induction false} FilterSorted(b: Bounds, s: seq<Inst>)
    requires Sorted(s)
    ensures Sorted(Filter(b, s))
  {
    if |s| > 0 {
      var init, x := s[..|s| - 1], s[|s| - 1];
      FilterSorted(b, init);
      forall i | 0 <= i < |Filter(b, init)|
        ensures Filter(b, init)[i].sn <= x.sn
      {
        FilterMembers(b, init, Filter(b, init)[i]);
      }
    }
  }

  ghost predicate AllBefore(f: seq<Inst>, g: seq<Inst>) {
    forall i, j :: 0 <= i < |f| && 0 <= j < |g| ==> f[i].sn <= g[j].sn
  }

  lemma SortedConcat(f: seq<Inst>, g: seq<Inst>)
    ensures Sorted(f + g) <==> Sorted(f) && Sorted(g) && AllBefore(f, g)
  {
    var s := f + g;
    assert forall i :: 0 <= i < |f| ==> s[i] == f[i];
    assert forall j :: 0 <= j < |g| ==> s[|f| + j] == g[j];
  }

  lemma BeforeByIndex(b: Bounds, s: seq<Inst>, t: seq<Inst>)
    ensures PrintableBefore(b, s, t) <==> AllBefore(Filter(b, s), Filter(b, t))
  {
    hide Filter, Printable;
    var f, g := Filter(b, s), Filter(b, t);
    forall x
      ensures x in f <==> x in s && Printable(b, x)
      ensures x in g <==> x in t && Printable(b, x)
    {
      FilterMembers(b, s, x);
      FilterMembers(b, t, x);
    }
    if PrintableBefore(b, s, t) {
      forall i, j | 0 <= i < |f| && 0 <= j < |g|
        ensures f[i].sn <= g[j].sn
      {
        assert f[i] in f && g[j] in g;
      }
    } else {
      var y, x :| y in s && x in t && Printable(b, y) && Printable(b, x) && y.sn > x.sn;
      var i :| 0 <= i < |f| && f[i] == y;
      var j :| 0 <= j < |g| && g[j] == x;
      assert f[i].sn > g[j].sn;
    }
  }

  /** Printing one batch behind another is in order exactly when both are and the first is before the second. */
  lemma ConcatSorted(b: Bounds, s: seq<Inst>, t: seq<Inst>)
    ensures Sorted(Filter(b, s + t)) <==> Sorted(Filter(b, s)) && Sorted(Filter(b, t)) && PrintableBefore(b, s, t)
  {
    hide Filter, Printable, PrintableBefore, Sorted, AllBefore;
    FilterConcat(b, s, t);
    SortedConcat(Filter(b, s), Filter(b, t));
    BeforeByIndex(b, s, t);
  }

  // ---------- The part of the trace that is read ----------

  /** A line of the record has reached the tick. */
  predicate Reaches(inst: Inst, tick: int) {
    inst.fetch >= tick || inst.lastTick >= tick
  }

  /** The first record that is looked at: the next one to be fetched once the start has been reached. */
  function StartIndex(b: Bounds, trace: seq<Inst>, i: nat): (start: nat)
    requires i <= |trace|
    ensures i <= start <= |trace|
    decreases |trace| - i
  {
    if i == |trace| then i
    else if b.tickStart != 0 then
      if trace[i].fetch >= b.tickStart then i
      else if Reaches(trace[i], b.tickStart) then i + 1
      else StartIndex(b, trace, i + 1)
    else if b.snStart != 0 && trace[i].sn < b.snStart then StartIndex(b, trace, i + 1)
    else i
  }

  /** Reading ends at the first record fetched well behind the end of the bounds. */
  predicate Stops(b: Bounds, maxThreshold: nat, inst: Inst) {
    || (b.tickStop > 0 && inst.fetch > b.tickStop + b.tickDrift)
    || (b.snStop > 0 && inst.sn > b.snStop + maxThreshold)
  }

  function StopIndex(b: Bounds, maxThreshold: nat, trace: seq<Inst>, i: nat): (stop: nat)
    requires i <= |trace|
    ensures i <= stop <= |trace|
    decreases |trace| - i
  {
    if i == |trace| || Stops(b, maxThreshold, trace[i]) then i else StopIndex(b, maxThreshold, trace, i + 1)
  }

  /** The records that are queued. */
  function Region(b: Bounds, maxThreshold: nat, trace: seq<Inst>): seq<Inst> {
    var start := StartIndex(b, trace, 0);
    trace[start..StopIndex(b, maxThreshold, trace, start)]
  }

  /** No printable record stands at or behind the one that ends the reading. */
  ghost predicate NothingCut(b: Bounds, maxThreshold: nat, trace: seq<Inst>) {
    forall i :: StopIndex(b, maxThreshold, trace, StartIndex(b, trace, 0)) <= i < |trace| ==> !Printable(b, trace[i])
  }

  /** What is skipped before the start would not have been printed. */
  lemma {:induction false} SkippedIsUnprintable(b: Bounds, trace: seq<Inst>, i: nat, k: nat)
    requires i <= |trace| && i <= k < StartIndex(b, trace, i)
    ensures !Printable(b, trace[k])
    decreases |trace| - i
  {
    if i < k {
      SkippedIsUnprintable(b, trace, i + 1, k);
    }
  }

  lemma {:induction false} StopIndexStops(b: Bounds, maxThreshold: nat, trace: seq<Inst>, i: nat)
    requires i <= |trace|
    ensures var stop := StopIndex(b, maxThreshold, trace, i);
      stop < |trace| ==> Stops(b, maxThreshold, trace[stop])
    decreases |trace| - i
  {
    if i < |trace| && !Stops(b, maxThreshold, trace[i]) {
      StopIndexStops(b, maxThreshold, trace, i + 1);
    }
  }

  /**
   * Reading starts at `start`: no record before it was fetched at the starting
   * tick or later, and only the one just before it may have reached that tick
   * with a later line; without a starting tick, at the first number that is due.
   */
  ghost predicate IsStart(b: Bounds, trace: seq<Inst>, start: nat)
    requires start <= |trace|
  {
    if b.tickStart > 0 then
      && (forall k :: 0 <= k < start ==> trace[k].fetch < b.tickStart)
      && (forall k :: 0 <= k < start - 1 ==> trace[k].lastTick < b.tickStart)
      && (start < |trace| ==>
            trace[start].fetch >= b.tickStart || (start > 0 && trace[start - 1].lastTick >= b.tickStart))
    else if b.snStart > 0 then
      && (forall k :: 0 <= k < start ==> trace[k].sn < b.snStart)
      && (start < |trace| ==> trace[start].sn >= b.snStart)
    else start == 0
  }

  /** The record lies so far behind the end of the bounds that no printable one is expected any more. */
  ghost predicate IsFarBehind(b: Bounds, maxThreshold: nat, inst: Inst) {
    (b.tickStop > 0 && inst.fetch - b.tickStop > b.tickDrift) || (b.snStop > 0 && inst.sn - b.snStop > maxThreshold)
  }

  lemma {:induction false} StartIndexExact(b: Bounds, trace: seq<Inst>, i: nat)
    requires i <= |trace|
    requires b.tickStart > 0 ==> forall k :: 0 <= k < i ==> !Reaches(trace[k], b.tickStart)
    requires b.tickStart == 0 && b.snStart > 0 ==> forall k :: 0 <= k < i ==> trace[k].sn < b.snStart
    requires b.tickStart == 0 && b.snStart == 0 ==> i == 0
    ensures IsStart(b, trace, StartIndex(b, trace, i))
    decreases |trace| - i
  {
    if i < |trace| {
      if b.tickStart != 0 && !Reaches(trace[i], b.tickStart) {
        StartIndexExact(b, trace, i + 1);
      } else if b.tickStart == 0 && b.snStart != 0 && trace[i].sn < b.snStart {
        StartIndexExact(b, trace, i + 1);
      }
    }
  }

  lemma {:induction false} StopIndexExact(b: Bounds, maxThreshold: nat, trace: seq<Inst>, i: nat)
    requires i <= |trace|
    ensures var stop := StopIndex(b, maxThreshold, trace, i);
      && (forall k :: i <= k < stop ==> !IsFarBehind(b, maxThreshold, trace[k]))
      && (stop < |trace| ==> IsFarBehind(b, maxThreshold, trace[stop]))
    decreases |trace| - i
  {
    if i < |trace| && !Stops(b, maxThreshold, trace[i]) {
      StopIndexExact(b, maxThreshold, trace, i + 1);
    }
  }

  /** The region reaches from the start to the first record far behind the bounds, or to the end of the trace. */
  lemma RegionExactly(b: Bounds, maxThreshold: nat, trace: seq<Inst>) returns (start: nat, stop: nat)
    ensures start <= stop <= |trace| && Region(b, maxThreshold, trace) == trace[start..stop]
    ensures IsStart(b, trace, start)
    ensures forall k :: start <= k < stop ==> !IsFarBehind(b, maxThreshold, trace[k])
    ensures stop < |trace| ==> IsFarBehind(b, maxThreshold, trace[stop])
  {
    hide StartIndex, StopIndex, IsStart, IsFarBehind;
    start := StartIndex(b, trace, 0);
    stop := StopIndex(b, maxThreshold, trace, start);
    StartIndexExact(b, trace, 0);
    StopIndexExact(b, maxThreshold, trace, start);
  }

  /** Only one record can be the start. */
  lemma StartUnique(b: Bounds, trace: seq<Inst>, s: nat, t: nat)
    requires s <= t <= |trace| && IsStart(b, trace, s) && IsStart(b, trace, t)
    ensures s == t
  {
  }

  /** Later records fall behind by at most the drift in ticks and the upper threshold in numbers. */
  ghost predicate DriftsAtMost(b: Bounds, maxThreshold: nat, trace: seq<Inst>) {
    && b.tickDrift >= 0
    && (forall i, j :: 0 <= i < j < |trace| ==> trace[j].fetch >= trace[i].fetch - b.tickDrift)
    && (forall i, j :: 0 <= i < j < |trace| ==> trace[j].sn >= trace[i].sn - maxThreshold)
  }

  /** Within that drift the early end loses nothing. */
  lemma DriftIsNotCut(b: Bounds, maxThreshold: nat, trace: seq<Inst>)
    requires DriftsAtMost(b, maxThreshold, trace)
    ensures NothingCut(b, maxThreshold, trace)
  {
    hide StartIndex, StopIndex;
    StopIndexStops(b, maxThreshold, trace, StartIndex(b, trace, 0));
  }

  /** Beyond it, a record that arrives behind the one that ends the reading is lost. */
  lemma LateRecordIsCut(b: Bounds, maxThreshold: nat, far: Inst, late: Inst)
    requires b.tickStart == 0 && b.snStart == 0 && Stops(b, maxThreshold, far) && Printable(b, late)
    ensures Region(b, maxThreshold, [far, late]) == [] && !NothingCut(b, maxThreshold, [far, late])
  {
    var trace := [far, late];
    assert StartIndex(b, trace, 0) == 0 && StopIndex(b, maxThreshold, trace, 0) == 0;
    assert trace[1] == late;
  }

  // ---------- The queue as a function of its arrivals ----------

  /** How many instructions leave the queue when it is emptied down to `lower`. */
  function Surplus(length: nat, lower: nat): nat {
    if length > lower then length - lower else 0
  }

  /** What has been taken off the queue, before filtering, and what is still in it. */
  datatype Buffer = Buffer(popped: seq<Inst>, queue: seq<Inst>)

  /** Sorting the queue and taking from its front until `lower` instructions are left. */
  function Emptied(s: Buffer, lower: nat): Buffer {
    var sorted, m := SortBySn(s.queue), Surplus(|s.queue|, lower);
    Buffer(s.popped + sorted[..m], sorted[m..])
  }

  /** Adding an instruction, and printing when the queue has outgrown its limit. */
  function Arrived(s: Buffer, x: Inst, maxThreshold: nat, minThreshold: nat): Buffer {
    var filled := Buffer(s.popped, s.queue + [x]);
    if |filled.queue| > maxThreshold then Emptied(filled, minThreshold) else filled
  }

  /** The buffer after i arrivals. */
  function Run(trace: seq<Inst>, maxThreshold: nat, minThreshold: nat, i: nat): Buffer
    requires i <= |trace|
  {
    if i == 0 then Buffer([], [])
    else Arrived(Run(trace, maxThreshold, minThreshold, i - 1), trace[i - 1], maxThreshold, minThreshold)
  }

  lemma RunNext(trace: seq<Inst>, maxThreshold: nat, minThreshold: nat, i: nat)
    requires i < |trace|
    ensures Run(trace, maxThreshold, minThreshold, i + 1)
         == Arrived(Run(trace, maxThreshold, minThreshold, i), trace[i], maxThreshold, minThreshold)
  {
  }

  /** Everything in the order it leaves the queue, the final flush included. */
  function Final(trace: seq<Inst>, maxThreshold: nat, minThreshold: nat): seq<Inst> {
    Emptied(Run(trace, maxThreshold, minThreshold, |trace|), 0).popped
  }

  /** How many instructions are queued after i arrivals. */
  function QueueLength(maxThreshold: nat, minThreshold: nat, i: nat): nat {
    if i == 0 then 0
    else
      var n := QueueLength(maxThreshold, minThreshold, i - 1) + 1;
      if n > maxThreshold then n - Surplus(n, minThreshold) else n
  }

  /** Arrival i makes the queue print. */
  predicate PrintsAt(maxThreshold: nat, minThreshold: nat, i: nat) {
    var n := QueueLength(maxThreshold, minThreshold, i) + 1;
    n > maxThreshold && n > minThreshold
  }

  lemma {:induction false} RunLength(trace: seq<Inst>, maxThreshold: nat, minThreshold: nat, i: nat)
    requires i <= |trace|
    ensures var r := Run(trace, maxThreshold, minThreshold, i);
      |r.queue| == QueueLength(maxThreshold, minThreshold, i) && |r.popped| + |r.queue| == i
  {
    hide SortBySn;
    if i > 0 {
      RunLength(trace, maxThreshold, minThreshold, i - 1);
    }
  }

  /** Emptying moves instructions without losing, duplicating or reordering equal ones. */
  lemma EmptiedConserves(s: Buffer, lower: nat)
    ensures var t := Emptied(s, lower);
      && multiset(t.popped) + multiset(t.queue) == multiset(s.popped) + multiset(s.queue)
      && forall sn :: WithSn(t.popped, sn) + WithSn(t.queue, sn) == WithSn(s.popped, sn) + WithSn(s.queue, sn)
  {
    hide SortBySn, WithSn;
    var sorted, m := SortBySn(s.queue), Surplus(|s.queue|, lower);
    var front, back := sorted[..m], sorted[m..];
    SortIsSorted(s.queue);
    assert sorted == front + back;
    assert multiset(front) + multiset(back) == multiset(s.queue);
    Regroup(multiset(s.popped), multiset(front), multiset(back));
    forall sn
      ensures WithSn(s.popped + front, sn) + WithSn(back, sn) == WithSn(s.popped, sn) + WithSn(s.queue, sn)
    {
      SortIsStable(s.queue, sn);
      WithSnConcat(front, back, sn);
      WithSnConcat(s.popped, front, sn);
      Reassociate(WithSn(s.popped, sn), WithSn(front, sn), WithSn(back, sn));
    }
  }

  lemma Regroup(a: multiset<Inst>, b: multiset<Inst>, c: multiset<Inst>)
    ensures (a + b) + c == a + (b + c)
  {
  }

  lemma Reassociate(a: seq<Inst>, b: seq<Inst>, c: seq<Inst>)
    ensures (a + b) + c == a + (b + c)
  {
  }

  /** Popped and queued instructions together are those that arrived, equal numbers in order. */
  ghost predicate Holds(s: Buffer, arrived: seq<Inst>) {
    && multiset(s.popped) + multiset(s.queue) == multiset(arrived)
    && forall sn :: WithSn(s.popped, sn) + WithSn(s.queue, sn) == WithSn(arrived, sn)
  }

  lemma FilledHolds(s: Buffer, arrived: seq<Inst>, x: Inst)
    requires Holds(s, arrived)
    ensures Holds(Buffer(s.popped, s.queue + [x]), arrived + [x])
  {
    hide WithSn;
    Regroup(multiset(s.popped), multiset(s.queue), multiset{x});
    forall sn
      ensures WithSn(s.popped, sn) + WithSn(s.queue + [x], sn) == WithSn(arrived + [x], sn)
    {
      WithSnNext(s.queue, x, sn);
      WithSnNext(arrived, x, sn);
      Reassociate(WithSn(s.popped, sn), WithSn(s.queue, sn), [x]);
    }
  }

  lemma {:induction false} RunHolds(trace: seq<Inst>, maxThreshold: nat, minThreshold: nat, i: nat)
    requires i <= |trace|
    ensures Holds(Run(trace, maxThreshold, minThreshold, i), trace[..i])
  {
    hide Emptied, Holds;
    if i == 0 {
      NothingHeld();
    } else {
      var s, x := Run(trace, maxThreshold, minThreshold, i - 1), trace[i - 1];
      RunHolds(trace, maxThreshold, minThreshold, i - 1);
      FilledHolds(s, trace[..i - 1], x);
      assert trace[..i - 1] + [x] == trace[..i];
      EmptiedHolds(Buffer(s.popped, s.queue + [x]), minThreshold, trace[..i]);
    }
  }

  lemma NothingHeld()
    ensures Holds(Buffer([], []), [])
  {
  }

  lemma EmptiedHolds(s: Buffer, lower: nat, arrived: seq<Inst>)
    requires Holds(s, arrived)
    ensures Holds(Emptied(s, lower), arrived)
  {
    hide Emptied, WithSn;
    EmptiedConserves(s, lower);
  }

  /** Every instruction leaves the queue once, and equal numbers leave in order of arrival, for all thresholds. */
  lemma FinalConserves(trace: seq<Inst>, maxThreshold: nat, minThreshold: nat)
    ensures multiset(Final(trace, maxThreshold, minThreshold)) == multiset(trace)
    ensures SameClasses(Final(trace, maxThreshold, minThreshold), trace)
  {
    hide Emptied, WithSn;
    var s := Run(trace, maxThreshold, minThreshold, |trace|);
    RunHolds(trace, maxThreshold, minThreshold, |trace|);
    assert trace[..|trace|] == trace;
    EmptiedConserves(s, 0);
    EmptiedToNothing(s);
  }

  lemma EmptiedToNothing(s: Buffer)
    ensures Emptied(s, 0).queue == []
    ensures forall sn :: WithSn(Emptied(s, 0).queue, sn) == []
  {
  }

  // ---------- What a print leaves in the queue ----------

  /** How many of the largest instructions are certain to be queued. */
  function Certain(s: Buffer, minThreshold: nat): nat {
    if s.popped == [] then |s.queue| else minThreshold
  }

  /** The largest instructions seen so far are the largest of the queue. */
  ghost predicate KeepsLargest(s: Buffer, minThreshold: nat, arrived: seq<Inst>) {
    var n := Certain(s, minThreshold);
    && n <= |s.queue| && |s.queue| <= |arrived| && (s.popped == [] ==> |s.queue| == |arrived|)
    && Last(SortBySn(s.queue), n) == Last(SortBySn(arrived), n)
  }

  lemma FilledKeepsLargest(s: Buffer, minThreshold: nat, arrived: seq<Inst>, x: Inst)
    requires KeepsLargest(s, minThreshold, arrived)
    ensures KeepsLargest(Buffer(s.popped, s.queue + [x]), minThreshold, arrived + [x])
  {
    hide SortBySn, Insert;
    var n := Certain(s, minThreshold);
    SortNext(s.queue, x);
    SortNext(arrived, x);
    if s.popped == [] {
      assert Last(SortBySn(s.queue), n) == SortBySn(s.queue) && Last(SortBySn(arrived), n) == SortBySn(arrived);
    } else {
      InsertKeepsLast(SortBySn(s.queue), SortBySn(arrived), n, x);
    }
  }

  /** A print leaves the largest of the queue, and these are the largest of all. */
  lemma PrintKeepsLargest(s: Buffer, minThreshold: nat, arrived: seq<Inst>)
    requires KeepsLargest(s, minThreshold, arrived) && |s.queue| > minThreshold
    ensures Emptied(s, minThreshold).queue == Last(SortBySn(arrived), minThreshold)
    ensures Emptied(s, minThreshold).popped != []
  {
    hide SortBySn, Last, Emptied;
    var n := Certain(s, minThreshold);
    EmptiedQueue(s, minThreshold);
    LastOfLast(SortBySn(s.queue), n, minThreshold);
    LastOfLast(SortBySn(arrived), n, minThreshold);
  }

  lemma EmptiedQueue(s: Buffer, lower: nat)
    requires |s.queue| > lower
    ensures Emptied(s, lower).queue == Last(SortBySn(s.queue), lower) && Emptied(s, lower).popped != []
  {
    hide SortBySn;
  }

  lemma EmptiedKeepsLargest(s: Buffer, minThreshold: nat, arrived: seq<Inst>)
    requires KeepsLargest(s, minThreshold, arrived)
    ensures KeepsLargest(Emptied(s, minThreshold), minThreshold, arrived)
  {
    hide SortBySn, Sorted;
    var sorted, m := SortBySn(s.queue), Surplus(|s.queue|, minThreshold);
    SortIsSorted(s.queue);
    SortedParts(sorted, m);
    SortOfSorted(sorted[m..]);
    if m > 0 {
      PrintKeepsLargest(s, minThreshold, arrived);
    } else {
      assert sorted[m..] == sorted && s.popped + sorted[..m] == s.popped;
    }
  }

  lemma LastOfLast(s: seq<Inst>, n: nat, k: nat)
    requires k <= n <= |s|
    ensures Last(Last(s, n), k) == Last(s, k)
  {
  }

  lemma {:induction false} RunKeepsLargest(trace: seq<Inst>, maxThreshold: nat, minThreshold: nat, i: nat)
    requires i <= |trace|
    ensures KeepsLargest(Run(trace, maxThreshold, minThreshold, i), minThreshold, trace[..i])
  {
    hide Emptied, KeepsLargest;
    if i == 0 {
      NothingArrived(minThreshold);
    } else {
      var s, x := Run(trace, maxThreshold, minThreshold, i - 1), trace[i - 1];
      RunKeepsLargest(trace, maxThreshold, minThreshold, i - 1);
      FilledKeepsLargest(s, minThreshold, trace[..i - 1], x);
      assert trace[..i - 1] + [x] == trace[..i];
      EmptiedKeepsLargest(Buffer(s.popped, s.queue + [x]), minThreshold, trace[..i]);
    }
  }

  lemma NothingArrived(minThreshold: nat)
    ensures KeepsLargest(Buffer([], []), minThreshold, [])
  {
  }

  /** All that is out once `seen` instructions have arrived and the queue has printed: all but the largest. */
  function Printed(trace: seq<Inst>, seen: nat, minThreshold: nat): seq<Inst>
    requires seen <= |trace|
  {
    SortBySn(trace[..seen])[..Surplus(seen, minThreshold)]
  }

  lemma {:induction false} PrintLeavesQueue(trace: seq<Inst>, maxThreshold: nat, minThreshold: nat, i: nat)
    requires i < |trace| && PrintsAt(maxThreshold, minThreshold, i)
    ensures minThreshold <= i
    ensures Run(trace, maxThreshold, minThreshold, i + 1).queue == Last(SortBySn(trace[..i + 1]), minThreshold)
  {
    hide Run, Emptied, SortBySn, KeepsLargest, Last, QueueLength;
    var s, seen := Run(trace, maxThreshold, minThreshold, i), trace[..i + 1];
    var filled := Buffer(s.popped, s.queue + [trace[i]]);
    RunLength(trace, maxThreshold, minThreshold, i);
    RunNext(trace, maxThreshold, minThreshold, i);
    assert Run(trace, maxThreshold, minThreshold, i + 1) == Emptied(filled, minThreshold);
    assert KeepsLargest(filled, minThreshold, seen) by {
      RunKeepsLargest(trace, maxThreshold, minThreshold, i);
      FilledKeepsLargest(s, minThreshold, trace[..i], trace[i]);
      assert trace[..i] + [trace[i]] == seen;
    }
    PrintKeepsLargest(filled, minThreshold, seen);
  }

  /** Whatever was printed before, a print leaves exactly the minThreshold largest instructions seen so far. */
  lemma {:induction false} PrintLeavesLargest(trace: seq<Inst>, maxThreshold: nat, minThreshold: nat, i: nat)
    requires i < |trace| && PrintsAt(maxThreshold, minThreshold, i)
    ensures var s := Run(trace, maxThreshold, minThreshold, i + 1);
      && s.queue == Last(SortBySn(trace[..i + 1]), minThreshold)
      && multiset(s.popped) == multiset(Printed(trace, i + 1, minThreshold))
  {
    hide Run, SortBySn, Holds, Last, PrintsAt;
    PrintLeavesQueue(trace, maxThreshold, minThreshold, i);
    RunHolds(trace, maxThreshold, minThreshold, i + 1);
    RestPrinted(Run(trace, maxThreshold, minThreshold, i + 1), trace[..i + 1], minThreshold);
  }

  lemma RestPrinted(s: Buffer, seen: seq<Inst>, minThreshold: nat)
    requires Holds(s, seen) && minThreshold <= |seen| && s.queue == Last(SortBySn(seen), minThreshold)
    ensures multiset(s.popped) == multiset(SortBySn(seen)[..Surplus(|seen|, minThreshold)])
  {
    hide SortBySn, WithSn;
    var sorted, m := SortBySn(seen), Surplus(|seen|, minThreshold);
    SortIsSorted(seen);
    assert sorted == sorted[..m] + s.queue;
    assert multiset(sorted) == multiset(sorted[..m]) + multiset(s.queue);
    Cancel(multiset(s.popped), multiset(sorted[..m]), multiset(s.queue));
  }

  lemma Cancel(a: multiset<Inst>, b: multiset<Inst>, c: multiset<Inst>)
    requires a + c == b + c
    ensures a == b
  {
    forall y
      ensures a[y] == b[y]
    {
      assert (a + c)[y] == (b + c)[y];
    }
  }

  // ---------- When the output is in order ----------

  /** No printable instruction that is out by then has a larger number than a printable one still to come. */
  ghost predicate PrintsSafely(b: Bounds, trace: seq<Inst>, seen: nat, minThreshold: nat)
    requires seen <= |trace|
  {
    PrintableBefore(b, Printed(trace, seen, minThreshold), trace[seen..])
  }

  /** Every print among the first n arrivals is safe. */
  ghost predicate SafeUpTo(b: Bounds, trace: seq<Inst>, maxThreshold: nat, minThreshold: nat, n: nat)
    requires n <= |trace|
  {
    forall i :: 0 <= i < n && PrintsAt(maxThreshold, minThreshold, i) ==> PrintsSafely(b, trace, i + 1, minThreshold)
  }

  /** What is printable of the trace can be printed in order through a queue with these thresholds. */
  ghost predicate VisiblySafe(b: Bounds, trace: seq<Inst>, maxThreshold: nat, minThreshold: nat) {
    SafeUpTo(b, trace, maxThreshold, minThreshold, |trace|)
  }

  /** What is out is in order and before everything in the queue and still to come. */
  ghost predicate InOrder(b: Bounds, s: Buffer, rest: seq<Inst>) {
    Sorted(Filter(b, s.popped)) && PrintableBefore(b, s.popped, s.queue) && PrintableBefore(b, s.popped, rest)
  }

  lemma FilledInOrder(b: Bounds, s: Buffer, x: Inst, rest: seq<Inst>)
    requires InOrder(b, s, [x] + rest)
    ensures InOrder(b, Buffer(s.popped, s.queue + [x]), rest)
  {
    hide Filter, Printable, Sorted;
    assert x in [x] + rest;
    assert forall y :: y in rest ==> y in [x] + rest;
  }

  lemma EmptiedInOrder(b: Bounds, s: Buffer, lower: nat, rest: seq<Inst>)
    requires InOrder(b, s, rest)
    ensures var t := Emptied(s, lower);
      && Sorted(Filter(b, t.popped)) && PrintableBefore(b, t.popped, t.queue)
  {
    hide SortBySn, Filter, Printable, Sorted;
    var sorted, m := SortBySn(s.queue), Surplus(|s.queue|, lower);
    var front, back := sorted[..m], sorted[m..];
    SortIsSorted(s.queue);
    SortedParts(sorted, m);
    FilterSorted(b, front);
    FilterSorted(b, sorted);
    PartsOfPermutation(front, back, s.queue);
    ConcatSorted(b, s.popped, front);
    ConcatSorted(b, front, back);
    forall y, x | y in s.popped + front && x in back && Printable(b, y) && Printable(b, x)
      ensures y.sn <= x.sn
    {
      assert y in s.popped || y in front;
    }
  }

  lemma PartsOfPermutation(s: seq<Inst>, t: seq<Inst>, u: seq<Inst>)
    requires multiset(s + t) == multiset(u)
    ensures forall x :: x in s || x in t ==> x in u
  {
    forall x | x in s || x in t
      ensures x in u
    {
      assert x in s + t;
      assert x in multiset(s + t);
    }
  }

  /** As long as every print is safe the output is in order. */
  lemma {:induction false} SafeRunIsInOrder(b: Bounds, trace: seq<Inst>, maxThreshold: nat, minThreshold: nat, i: nat)
    requires i <= |trace| && SafeUpTo(b, trace, maxThreshold, minThreshold, i)
    ensures InOrder(b, Run(trace, maxThreshold, minThreshold, i), trace[i..])
  {
    hide Emptied, PrintsSafely, PrintsAt, PrintableBefore, Sorted;
    if i == 0 {
      NothingOut(b, trace[i..]);
    } else {
      var s, x := Run(trace, maxThreshold, minThreshold, i - 1), trace[i - 1];
      SafeRunIsInOrder(b, trace, maxThreshold, minThreshold, i - 1);
      assert trace[i - 1..] == [x] + trace[i..];
      FilledInOrder(b, s, x, trace[i..]);
      var filled := Buffer(s.popped, s.queue + [x]);
      if |filled.queue| > maxThreshold {
        EmptiedInOrder(b, filled, minThreshold, trace[i..]);
        PrintedBeforeRest(b, trace, maxThreshold, minThreshold, i - 1);
      }
    }
  }

  lemma NothingOut(b: Bounds, rest: seq<Inst>)
    ensures InOrder(b, Buffer([], []), rest)
  {
  }

  /** A safe print puts nothing out before its time. */
  lemma PrintedBeforeRest(b: Bounds, trace: seq<Inst>, maxThreshold: nat, minThreshold: nat, i: nat)
    requires i < |trace| && |Run(trace, maxThreshold, minThreshold, i).queue| + 1 > maxThreshold
    requires PrintsAt(maxThreshold, minThreshold, i) ==> PrintsSafely(b, trace, i + 1, minThreshold)
    requires PrintableBefore(b, Run(trace, maxThreshold, minThreshold, i).popped, trace[i + 1..])
    ensures PrintableBefore(b, Run(trace, maxThreshold, minThreshold, i + 1).popped, trace[i + 1..])
  {
    hide SortBySn, Printable;
    var s := Run(trace, maxThreshold, minThreshold, i);
    RunLength(trace, maxThreshold, minThreshold, i);
    if PrintsAt(maxThreshold, minThreshold, i) {
      PrintLeavesLargest(trace, maxThreshold, minThreshold, i);
      SameMembers(Run(trace, maxThreshold, minThreshold, i + 1).popped, Printed(trace, i + 1, minThreshold));
    } else {
      assert Run(trace, maxThreshold, minThreshold, i + 1).popped == s.popped;
    }
  }

  lemma SameMembers(s: seq<Inst>, t: seq<Inst>)
    requires multiset(s) == multiset(t)
    ensures forall x :: x in s <==> x in t
  {
    forall x
      ensures x in s <==> x in t
    {
      assert x in multiset(s) <==> x in multiset(t);
    }
  }

  lemma {:induction false} RunGrows(trace: seq<Inst>, maxThreshold: nat, minThreshold: nat, i: nat, j: nat)
    requires i <= j <= |trace|
    ensures Run(trace, maxThreshold, minThreshold, i).popped <= Run(trace, maxThreshold, minThreshold, j).popped
  {
    hide SortBySn;
    if i < j {
      RunGrows(trace, maxThreshold, minThreshold, i, j - 1);
    }
  }

  /** What leaves the queue after `seen` arrivals includes all that arrive later. */
  lemma LaterComesLater(trace: seq<Inst>, maxThreshold: nat, minThreshold: nat, seen: nat, x: Inst)
    requires seen <= |trace| && x in trace[seen..]
    ensures Run(trace, maxThreshold, minThreshold, seen).popped <= Final(trace, maxThreshold, minThreshold)
    ensures x in Final(trace, maxThreshold, minThreshold)[|Run(trace, maxThreshold, minThreshold, seen).popped|..]
  {
    hide Run, WithSn, Emptied;
    var s, final := Run(trace, maxThreshold, minThreshold, seen), Final(trace, maxThreshold, minThreshold);
    RunGrows(trace, maxThreshold, minThreshold, seen, |trace|);
    RunHolds(trace, maxThreshold, minThreshold, seen);
    FinalConserves(trace, maxThreshold, minThreshold);
    EmptiedGrows(Run(trace, maxThreshold, minThreshold, |trace|));
    var after, later := final[|s.popped|..], trace[seen..];
    assert final == s.popped + after && trace == trace[..seen] + later;
    Balance(multiset(s.popped), multiset(after), multiset(s.queue), multiset(later), x);
    assert x in multiset(after);
  }

  lemma EmptiedGrows(s: Buffer)
    ensures s.popped <= Emptied(s, 0).popped
  {
  }

  lemma Balance(p: multiset<Inst>, after: multiset<Inst>, q: multiset<Inst>, later: multiset<Inst>, x: Inst)
    requires p + after == (p + q) + later && x in later
    ensures x in after
  {
    assert (p + after)[x] == ((p + q) + later)[x];
  }

  /** One unsafe print puts the output out of order, whatever follows. */
  lemma UnsafePrintIsSeen(b: Bounds, trace: seq<Inst>, maxThreshold: nat, minThreshold: nat, i: nat)
    requires i < |trace| && PrintsAt(maxThreshold, minThreshold, i) && !PrintsSafely(b, trace, i + 1, minThreshold)
    ensures !Sorted(Filter(b, Final(trace, maxThreshold, minThreshold)))
  {
    hide Run, Final, Filter, Printable, Printed, PrintsAt, Sorted;
    var y, x :| y in Printed(trace, i + 1, minThreshold) && x in trace[i + 1..] && Printable(b, y) && Printable(b, x)
                && y.sn > x.sn;
    var early, final := Run(trace, maxThreshold, minThreshold, i + 1).popped, Final(trace, maxThreshold, minThreshold);
    PrintLeavesLargest(trace, maxThreshold, minThreshold, i);
    SameMembers(early, Printed(trace, i + 1, minThreshold));
    LaterComesLater(trace, maxThreshold, minThreshold, i + 1, x);
    assert final == early + final[|early|..];
    ConcatSorted(b, early, final[|early|..]);
  }

  /** The output is in order exactly when no print is unsafe. */
  lemma InOrderExactly(b: Bounds, trace: seq<Inst>, maxThreshold: nat, minThreshold: nat)
    ensures Sorted(Filter(b, Final(trace, maxThreshold, minThreshold)))
       <==> VisiblySafe(b, trace, maxThreshold, minThreshold)
  {
    hide Run, Emptied, Filter, Sorted, PrintsAt, PrintsSafely;
    if VisiblySafe(b, trace, maxThreshold, minThreshold) {
      SafeRunIsInOrder(b, trace, maxThreshold, minThreshold, |trace|);
      EmptiedInOrder(b, Run(trace, maxThreshold, minThreshold, |trace|), 0, trace[|trace|..]);
    } else {
      var i :| && 0 <= i < |trace| && PrintsAt(maxThreshold, minThreshold, i)
               && !PrintsSafely(b, trace, i + 1, minThreshold);
      UnsafePrintIsSeen(b, trace, maxThreshold, minThreshold, i);
    }
  }

  /** Sequences with the same classes are filtered to the same output if they are in order. */
  lemma SameFiltered(b: Bounds, s: seq<Inst>, t: seq<Inst>)
    requires (forall sn :: Filter(b, WithSn(s, sn)) == Filter(b, WithSn(t, sn))) && Sorted(Filter(b, t))
    ensures Filter(b, s) == Filter(b, t) <==> Sorted(Filter(b, s))
  {
    hide Filter, WithSn, Sorted;
    forall sn
      ensures WithSn(Filter(b, s), sn) == WithSn(Filter(b, t), sn)
    {
      FilterWithSn(b, s, sn);
      FilterWithSn(b, t, sn);
    }
    if Sorted(Filter(b, s)) {
      StableOrderUnique(Filter(b, s), Filter(b, t));
    }
  }

  /** For all bounds: what is printed is the filtered stable sort exactly when no print is unsafe. */
  lemma OutputExactly(b: Bounds, trace: seq<Inst>, maxThreshold: nat, minThreshold: nat)
    ensures Filter(b, Final(trace, maxThreshold, minThreshold)) == Filter(b, SortBySn(trace))
       <==> VisiblySafe(b, trace, maxThreshold, minThreshold)
  {
    hide Final, Filter, Sorted, VisiblySafe, SortBySn, WithSn;
    var final := Final(trace, maxThreshold, minThreshold);
    FinalConserves(trace, maxThreshold, minThreshold);
    forall sn
      ensures WithSn(SortBySn(trace), sn) == WithSn(final, sn)
    {
      SortIsStable(trace, sn);
    }
    SortIsSorted(trace);
    FilterSorted(b, SortBySn(trace));
    SameFiltered(b, final, SortBySn(trace));
    InOrderExactly(b, trace, maxThreshold, minThreshold);
  }

  // ---------- The early end ----------

  /** Unprintable records in front do not count, and those behind exactly if none is printable. */
  lemma OnlyTheMiddle(b: Bounds, skipped: seq<Inst>, region: seq<Inst>, cut: seq<Inst>)
    requires Filter(b, skipped) == []
    ensures Filter(b, (skipped + region) + cut) == Filter(b, region) <==> Filter(b, cut) == []
    ensures |Filter(b, (skipped + region) + cut)| == |Filter(b, region)| <==> Filter(b, cut) == []
  {
    hide Filter, Printable;
    FilterConcat(b, skipped + region, cut);
    FilterConcat(b, skipped, region);
  }

  lemma NothingCutByFilter(b: Bounds, maxThreshold: nat, trace: seq<Inst>)
    ensures NothingCut(b, maxThreshold, trace)
       <==> Filter(b, trace[StopIndex(b, maxThreshold, trace, StartIndex(b, trace, 0))..]) == []
  {
    hide Filter, Printable, StartIndex, StopIndex;
    var stop := StopIndex(b, maxThreshold, trace, StartIndex(b, trace, 0));
    var cut := trace[stop..];
    FilterEmpty(b, cut);
    assert forall i :: stop <= i < |trace| ==> trace[i] == cut[i - stop];
    assert forall i :: 0 <= i < |cut| ==> cut[i] == trace[stop + i];
  }

  /** Filtering the region and filtering the trace give the same exactly when nothing printable is cut. */
  lemma RegionIsPrintable(b: Bounds, maxThreshold: nat, trace: seq<Inst>)
    ensures Filter(b, trace) == Filter(b, Region(b, maxThreshold, trace)) <==> NothingCut(b, maxThreshold, trace)
    ensures |Filter(b, trace)| == |Filter(b, Region(b, maxThreshold, trace))| <==> NothingCut(b, maxThreshold, trace)
  {
    hide Filter, Printable, StartIndex, StopIndex, NothingCut;
    var start := StartIndex(b, trace, 0);
    var stop := StopIndex(b, maxThreshold, trace, start);
    var skipped := trace[..start];
    forall k | 0 <= k < |skipped|
      ensures !Printable(b, skipped[k])
    {
      SkippedIsUnprintable(b, trace, 0, k);
    }
    FilterEmpty(b, skipped);
    assert trace == (skipped + trace[start..stop]) + trace[stop..];
    OnlyTheMiddle(b, skipped, trace[start..stop], trace[stop..]);
    NothingCutByFilter(b, maxThreshold, trace);
  }

  lemma FilterRemove(b: Bounds, t: seq<Inst>, p: nat)
    requires p < |t|
    ensures var rest := t[..p] + t[p + 1..];
      && multiset(t) == multiset(rest) + multiset{t[p]}
      && |Filter(b, t)| == |Filter(b, rest)| + if Printable(b, t[p]) then 1 else 0
  {
    hide Filter, Printable;
    var front, back := t[..p], t[p + 1..];
    assert t == (front + [t[p]]) + back;
    FilterConcat(b, front + [t[p]], back);
    FilterConcat(b, front, back);
    FilterNext(b, front, t[p]);
  }

  /** How much is printed does not depend on the order. */
  lemma {:induction false} FilterLength(b: Bounds, s: seq<Inst>, t: seq<Inst>)
    requires multiset(s) == multiset(t)
    ensures |Filter(b, s)| == |Filter(b, t)|
  {
    if |s| == 0 {
      assert |multiset(t)| == 0;
    } else {
      hide Filter, Printable;
      var init, x := s[..|s| - 1], s[|s| - 1];
      assert s == init + [x] && x in multiset(s);
      var p :| 0 <= p < |t| && t[p] == x;
      var rest := t[..p] + t[p + 1..];
      FilterRemove(b, t, p);
      Cancel(multiset(init), multiset(rest), multiset{x});
      FilterLength(b, init, rest);
      FilterNext(b, init, x);
    }
  }

  /**
   * The output is the filtered stable sort of the whole trace exactly when the
   * early end cuts nothing printable and no print of the region is unsafe.
   */
  lemma WholeTraceExactly(b: Bounds, trace: seq<Inst>, maxThreshold: nat, minThreshold: nat)
    ensures var region := Region(b, maxThreshold, trace);
      Filter(b, Final(region, maxThreshold, minThreshold)) == Filter(b, SortBySn(trace)) <==>
      (NothingCut(b, maxThreshold, trace) && VisiblySafe(b, region, maxThreshold, minThreshold))
  {
    hide Filter, Region, NothingCut, VisiblySafe, SortBySn, Final;
    var region := Region(b, maxThreshold, trace);
    var final := Final(region, maxThreshold, minThreshold);
    FinalConserves(region, maxThreshold, minThreshold);
    FilterLength(b, final, region);
    SortIsSorted(trace);
    FilterLength(b, SortBySn(trace), trace);
    RegionIsPrintable(b, maxThreshold, trace);
    OutputExactly(b, region, maxThreshold, minThreshold);
    if NothingCut(b, maxThreshold, trace) {
      SortsAgree(b, region, trace);
    }
  }

  lemma SortsAgree(b: Bounds, s: seq<Inst>, t: seq<Inst>)
    requires Filter(b, s) == Filter(b, t)
    ensures Filter(b, SortBySn(s)) == Filter(b, SortBySn(t))
  {
    hide Filter, WithSn, Sorted, SortBySn;
    SortIsSorted(s);
    SortIsSorted(t);
    FilterSorted(b, SortBySn(s));
    FilterSorted(b, SortBySn(t));
    forall sn
      ensures Filter(b, WithSn(SortBySn(s), sn)) == Filter(b, WithSn(SortBySn(t), sn))
    {
      SortIsStable(s, sn);
      SortIsStable(t, sn);
      FilterWithSn(b, s, sn);
      FilterWithSn(b, t, sn);
    }
    SameFiltered(b, SortBySn(s), SortBySn(t));
  }

  // ---------- How far out of order a trace may be ----------

  /** How many instructions of s have a number above sn. */
  function CountAbove(s: seq<Inst>, sn: int): nat {
    if |s| == 0 then 0 else CountAbove(s[..|s| - 1], sn) + if s[|s| - 1].sn > sn then 1 else 0
  }

  /** No instruction is preceded by more than `bound` instructions with a larger number. */
  ghost predicate DisplacedAtMost(trace: seq<Inst>, bound: nat) {
    forall j :: 0 <= j < |trace| ==> CountAbove(trace[..j], trace[j].sn) <= bound
  }

  /** Of the first `seen` instructions, at most `kept` have a larger number than any one still to come. */
  ghost predicate SafePoint(trace: seq<Inst>, seen: nat, kept: nat)
    requires seen <= |trace|
  {
    forall j :: seen <= j < |trace| ==> CountAbove(trace[..seen], trace[j].sn) <= kept
  }

  /** The whole trace can be printed in order through a queue with these thresholds. */
  ghost predicate SafelyBuffered(trace: seq<Inst>, maxThreshold: nat, minThreshold: nat) {
    forall i :: 0 <= i < |trace| && PrintsAt(maxThreshold, minThreshold, i) ==> SafePoint(trace, i + 1, minThreshold)
  }

  lemma {:induction false} CountAboveConcat(s: seq<Inst>, t: seq<Inst>, sn: int)
    ensures CountAbove(s + t, sn) == CountAbove(s, sn) + CountAbove(t, sn)
  {
    if |t| == 0 {
      assert s + t == s;
    } else {
      CountAboveConcat(s, t[..|t| - 1], sn);
      assert (s + t)[..|s + t| - 1] == s + t[..|t| - 1];
    }
  }

  lemma {:induction false} CountAfterInsert(s: seq<Inst>, x: Inst, sn: int)
    ensures CountAbove(Insert(s, x), sn) == CountAbove(s, sn) + if x.sn > sn then 1 else 0
  {
    if |s| == 0 || s[|s| - 1].sn <= x.sn {
      assert (s + [x])[..|s|] == s;
    } else {
      var init, last := s[..|s| - 1], s[|s| - 1];
      CountAfterInsert(init, x, sn);
      assert (Insert(init, x) + [last])[..|s|] == Insert(init, x);
    }
  }

  /** Sorting does not change how many there are. */
  lemma {:induction false} CountSorted(s: seq<Inst>, sn: int)
    ensures CountAbove(SortBySn(s), sn) == CountAbove(s, sn)
  {
    if |s| > 0 {
      CountSorted(s[..|s| - 1], sn);
      CountAfterInsert(SortBySn(s[..|s| - 1]), s[|s| - 1], sn);
    }
  }

  lemma {:induction false} CountAboveAll(s: seq<Inst>, sn: int)
    requires forall i :: 0 <= i < |s| ==> s[i].sn > sn
    ensures CountAbove(s, sn) == |s|
  {
    if |s| > 0 {
      CountAboveAll(s[..|s| - 1], sn);
    }
  }

  lemma {:induction false} CountAboveAtMost(s: seq<Inst>, sn: int)
    ensures CountAbove(s, sn) <= |s|
    ensures (forall i :: 0 <= i < |s| ==> s[i].sn <= sn) ==> CountAbove(s, sn) == 0
  {
    if |s| > 0 {
      CountAboveAtMost(s[..|s| - 1], sn);
    }
  }

  /** In a sorted sequence at most k are above sn exactly when all but the last k are not. */
  lemma SortedCount(s: seq<Inst>, k: nat, sn: int)
    requires Sorted(s) && k <= |s|
    ensures CountAbove(s, sn) <= k <==> forall i :: 0 <= i < |s| - k ==> s[i].sn <= sn
  {
    hide CountAbove;
    var m := |s| - k;
    if i :| 0 <= i < m && s[i].sn > sn {
      assert s == s[..i] + s[i..];
      CountAboveConcat(s[..i], s[i..], sn);
      CountAboveAll(s[i..], sn);
    } else {
      assert s == s[..m] + s[m..];
      CountAboveConcat(s[..m], s[m..], sn);
      CountAboveAtMost(s[..m], sn);
      CountAboveAtMost(s[m..], sn);
    }
  }

  ghost predicate AllAtMost(s: seq<Inst>, sn: int) {
    forall y :: y in s ==> y.sn <= sn
  }

  /** At most `kept` of those seen are above sn exactly when all that is out is not. */
  lemma CountDecidesOne(trace: seq<Inst>, seen: nat, kept: nat, sn: int)
    requires kept <= seen <= |trace|
    ensures CountAbove(trace[..seen], sn) <= kept <==> AllAtMost(Printed(trace, seen, kept), sn)
  {
    hide SortBySn, CountAbove, Sorted;
    var s, m := SortBySn(trace[..seen]), seen - kept;
    SortIsSorted(trace[..seen]);
    CountSorted(trace[..seen], sn);
    SortedCount(s, kept, sn);
    assert Printed(trace, seen, kept) == s[..m];
    assert forall i :: 0 <= i < m ==> s[i] in s[..m];
  }

  /** Without bounds a print is safe exactly at a safe point. */
  lemma CountsDecide(trace: seq<Inst>, seen: nat, kept: nat)
    requires kept <= seen <= |trace|
    ensures PrintsSafely(UNBOUNDED, trace, seen, kept) <==> SafePoint(trace, seen, kept)
  {
    hide Printed, CountAbove;
    var printed, rest := Printed(trace, seen, kept), trace[seen..];
    forall j | seen <= j < |trace|
      ensures CountAbove(trace[..seen], trace[j].sn) <= kept <==> AllAtMost(printed, trace[j].sn)
      ensures trace[j] in rest
    {
      CountDecidesOne(trace, seen, kept, trace[j].sn);
      assert trace[j] == rest[j - seen];
    }
    if SafePoint(trace, seen, kept) {
      forall y, x | y in printed && x in rest
        ensures y.sn <= x.sn
      {
        var j :| 0 <= j < |rest| && rest[j] == x;
        assert AllAtMost(printed, trace[seen + j].sn);
      }
    }
  }

  /** Without bounds the exact condition can be counted on the trace. */
  lemma SafelyBufferedExactly(trace: seq<Inst>, maxThreshold: nat, minThreshold: nat)
    ensures SafelyBuffered(trace, maxThreshold, minThreshold) <==>
            VisiblySafe(UNBOUNDED, trace, maxThreshold, minThreshold)
  {
    hide PrintsSafely, SafePoint, PrintsAt;
    forall i | 0 <= i < |trace| && PrintsAt(maxThreshold, minThreshold, i)
      ensures PrintsSafely(UNBOUNDED, trace, i + 1, minThreshold) <==> SafePoint(trace, i + 1, minThreshold)
    {
      PrintLeavesQueue(trace, maxThreshold, minThreshold, i);
      CountsDecide(trace, i + 1, minThreshold);
    }
  }

  /** Bounds only help: what is in order without them is in order with them. */
  lemma SafelyBufferedIsVisiblySafe(b: Bounds, trace: seq<Inst>, maxThreshold: nat, minThreshold: nat)
    requires SafelyBuffered(trace, maxThreshold, minThreshold)
    ensures VisiblySafe(b, trace, maxThreshold, minThreshold)
  {
    hide SafelyBuffered, Printed, PrintsAt;
    SafelyBufferedExactly(trace, maxThreshold, minThreshold);
    forall i | 0 <= i < |trace| && PrintsAt(maxThreshold, minThreshold, i)
      ensures PrintsSafely(b, trace, i + 1, minThreshold)
    {
      assert PrintsSafely(UNBOUNDED, trace, i + 1, minThreshold);
      assert forall x :: Printable(UNBOUNDED, x);
    }
  }

  /** Everything leaves in the stable order exactly when the trace is safely buffered. */
  lemma AllInOrderExactly(trace: seq<Inst>, maxThreshold: nat, minThreshold: nat)
    ensures Final(trace, maxThreshold, minThreshold) == SortBySn(trace) <==>
            SafelyBuffered(trace, maxThreshold, minThreshold)
  {
    hide *;
    FilterUnbounded(Final(trace, maxThreshold, minThreshold));
    FilterUnbounded(SortBySn(trace));
    OutputExactly(UNBOUNDED, trace, maxThreshold, minThreshold);
    SafelyBufferedExactly(trace, maxThreshold, minThreshold);
  }

  /** A displacement within the lower threshold is safe whatever the upper one is. */
  lemma BoundedDisplacementIsSafe(trace: seq<Inst>, maxThreshold: nat, minThreshold: nat)
    requires DisplacedAtMost(trace, minThreshold)
    ensures SafelyBuffered(trace, maxThreshold, minThreshold)
  {
    forall seen, j | 0 <= seen <= j < |trace|
      ensures CountAbove(trace[..seen], trace[j].sn) <= minThreshold
    {
      assert trace[..j] == trace[..seen] + trace[seen..j];
      CountAboveConcat(trace[..seen], trace[seen..j], trace[j].sn);
    }
  }

  lemma {:induction false} QueueFills(maxThreshold: nat, minThreshold: nat, i: nat)
    requires i <= maxThreshold || i <= minThreshold
    ensures QueueLength(maxThreshold, minThreshold, i) == i
  {
    if i > 0 {
      QueueFills(maxThreshold, minThreshold, i - 1);
    }
  }

  /** A trace that never overfills the queue is safe however far its instructions are displaced. */
  lemma ShortTraceIsSafe(trace: seq<Inst>, maxThreshold: nat, minThreshold: nat)
    requires |trace| <= maxThreshold
    ensures SafelyBuffered(trace, maxThreshold, minThreshold)
  {
    hide QueueLength, SafePoint;
    forall i | 0 <= i < |trace|
      ensures !PrintsAt(maxThreshold, minThreshold, i)
    {
      QueueFills(maxThreshold, minThreshold, i);
    }
  }

  /** No thresholds suffice: an instruction that arrives after enough later ones is always overtaken. */
  lemma LateArrivalIsUnsafe(maxThreshold: nat, minThreshold: nat, ahead: seq<Inst>, late: Inst)
    requires |ahead| == 1 + if maxThreshold > minThreshold then maxThreshold else minThreshold
    requires forall i :: 0 <= i < |ahead| ==> ahead[i].sn > late.sn
    ensures !SafelyBuffered(ahead + [late], maxThreshold, minThreshold)
  {
    hide CountAbove, QueueLength;
    var trace, n := ahead + [late], |ahead|;
    QueueFills(maxThreshold, minThreshold, n - 1);
    CountAboveAll(ahead, late.sn);
    assert trace[..n] == ahead && trace[n] == late;
    assert !SafePoint(trace, n, minThreshold) by {
      assert CountAbove(trace[..n], trace[n].sn) > minThreshold;
    }
    assert PrintsAt(maxThreshold, minThreshold, n - 1);
  }

  // ---------- The program ----------

  lemma EmptyFilter(b: Bounds)
    ensures Filter(b, []) == []
  {
  }

  /** What is printed of a permutation of the region: exactly what the bounds ask for, as often as it occurs. */
  lemma OutputIsRequested(b: Bounds, region: seq<Inst>, popped: seq<Inst>)
    requires multiset(popped) == multiset(region)
    ensures forall x :: multiset(Filter(b, popped))[x] == if Requested(b, x) then multiset(region)[x] else 0
    ensures b.onlyCommitted ==> forall x :: x in Filter(b, popped) ==> x.retire != 0
  {
    hide Filter;
    forall x
      ensures multiset(Filter(b, popped))[x] == if Requested(b, x) then multiset(region)[x] else 0
    {
      FilterCounts(b, popped, x);
    }
    forall x | x in Filter(b, popped) && b.onlyCommitted
      ensures x.retire != 0
    {
      assert x in multiset(Filter(b, popped));
    }
  }

  lemma RegionNext(trace: seq<Inst>, start: nat, i: nat, stop: nat)
    requires start <= i < stop <= |trace|
    ensures trace[start..stop][i - start] == trace[i]
  {
  }

  class PrintQueue {
    var queue: seq<Inst>
    var output: seq<Inst>
    /** Everything taken off the queue so far, before filtering. */
    ghost var popped: seq<Inst>
    const maxThreshold: nat
    const minThreshold: nat
    const bounds: Bounds

    constructor (maxThreshold: nat, minThreshold: nat, bounds: Bounds)
      ensures queue == [] && output == [] && popped == []
      ensures this.maxThreshold == maxThreshold && this.minThreshold == minThreshold && this.bounds == bounds
    {
      queue, output, popped := [], [], [];
      this.maxThreshold, this.minThreshold, this.bounds := maxThreshold, minThreshold, bounds;
    }

    ghost function Value(): Buffer
      reads this
    {
      Buffer(popped, queue)
    }

    /** Sorts the queue and prints from its front until `lower` instructions are left. */
    method PrintInsts(lower: nat)
      requires output == Filter(bounds, popped)
      modifies this
      ensures Value() == Emptied(old(Value()), lower)
      ensures output == Filter(bounds, popped)
    {
      hide SortBySn, Filter;
      ghost var s, before := SortBySn(queue), popped;
      queue := SortBySn(queue);
      ghost var taken := 0;
      while |queue| > lower
        invariant taken <= Surplus(|s|, lower) && queue == s[taken..]
        invariant popped == before + s[..taken]
        invariant output == Filter(bounds, popped)
      {
        var item := queue[0];
        FilterNext(bounds, popped, item);
        queue := queue[1..];
        popped := popped + [item];
        assert s[..taken + 1] == s[..taken] + [item];
        taken := taken + 1;
        if Printable(bounds, item) {
          output := output + [item];
        }
      }
    }

    /** Adds an instruction and prints when the queue has outgrown its limit. */
    method QueueInst(inst: Inst)
      requires output == Filter(bounds, popped)
      modifies this
      ensures Value() == Arrived(old(Value()), inst, maxThreshold, minThreshold)
      ensures output == Filter(bounds, popped)
    {
      hide Emptied;
      queue := queue + [inst];
      if |queue| > maxThreshold {
        PrintInsts(minThreshold);
      }
    }

    /** Skips the records before the requested start. */
    method SkipToStart(trace: seq<Inst>) returns (i: nat)
      ensures i == StartIndex(bounds, trace, 0) <= |trace| && IsStart(bounds, trace, i)
    {
      StartIndexExact(bounds, trace, 0);
      i := 0;
      if bounds.tickStart != 0 {
        while i < |trace| && !Reaches(trace[i], bounds.tickStart)
          invariant i <= |trace| && StartIndex(bounds, trace, i) == StartIndex(bounds, trace, 0)
        {
          i := i + 1;
        }
        if i < |trace| && trace[i].fetch < bounds.tickStart {
          i := i + 1;
        }
      } else if bounds.snStart != 0 {
        while i < |trace| && trace[i].sn < bounds.snStart
          invariant i <= |trace| && StartIndex(bounds, trace, i) == StartIndex(bounds, trace, 0)
        {
          i := i + 1;
        }
      }
    }

    /**
     * Queues the records of the region and flushes. The output is the filtered
     * stable sort of the whole trace exactly when the early end cuts nothing
     * printable and no print lets a printable instruction overtake another.
     */
    method ProcessTrace(trace: seq<Inst>)
      requires queue == [] && output == [] && popped == []
      modifies this
      ensures forall x :: multiset(output)[x]
                       == if Requested(bounds, x) then multiset(Region(bounds, maxThreshold, trace))[x] else 0
      ensures bounds.onlyCommitted ==> forall x :: x in output ==> x.retire != 0
      ensures output == Filter(bounds, popped)
      ensures popped == Final(Region(bounds, maxThreshold, trace), maxThreshold, minThreshold)
      ensures multiset(popped) == multiset(Region(bounds, maxThreshold, trace))
      ensures output == Filter(bounds, SortBySn(trace)) <==>
              (NothingCut(bounds, maxThreshold, trace)
               && VisiblySafe(bounds, Region(bounds, maxThreshold, trace), maxThreshold, minThreshold))
      ensures popped == SortBySn(Region(bounds, maxThreshold, trace)) <==>
              SafelyBuffered(Region(bounds, maxThreshold, trace), maxThreshold, minThreshold)
    {
      hide Filter, SortBySn, Emptied, Arrived, StartIndex, VisiblySafe, SafelyBuffered, NothingCut, PrintsAt, IsStart,
           Requested;
      EmptyFilter(bounds);
      var i := SkipToStart(trace);
      ghost var start, region := i, Region(bounds, maxThreshold, trace);
      ghost var stop := StopIndex(bounds, maxThreshold, trace, start);
      while i < |trace|
        invariant start <= i <= stop <= |trace| && StopIndex(bounds, maxThreshold, trace, i) == stop
        invariant output == Filter(bounds, popped)
        invariant Value() == Run(region, maxThreshold, minThreshold, i - start)
      {
        if Stops(bounds, maxThreshold, trace[i]) {
          break;
        }
        RegionNext(trace, start, i, stop);
        RunNext(region, maxThreshold, minThreshold, i - start);
        QueueInst(trace[i]);
        i := i + 1;
      }
      PrintInsts(0);
      FinalConserves(region, maxThreshold, minThreshold);
      WholeTraceExactly(bounds, trace, maxThreshold, minThreshold);
      AllInOrderExactly(region, maxThreshold, minThreshold);
      OutputIsRequested(bounds, region, popped);
    }
  }
}
