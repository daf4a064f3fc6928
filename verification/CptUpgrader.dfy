/** Checkpoint migration: rounds of upgrades and downgrades, ordered by the dependencies between tags. */
module CptUpgrader {

  /** A loaded migration script: it adds its tag (upgrader) or removes it (downgrader). */
  datatype Script = Script(isUpgrader: bool, depends: seq<string>)

  /** The scripts by tag; a tag is used once, so it names either an upgrader or a downgrader. */
  type Registry = map<string, Script>

  function TagSet(reg: Registry): set<string> {
    set t | t in reg && reg[t].isUpgrader
  }

  function UntagSet(reg: Registry): set<string> {
    set t | t in reg && !reg[t].isUpgrader
  }

  function ToAdd(reg: Registry, tags: set<string>): set<string> {
    TagSet(reg) - tags
  }

  function ToRemove(reg: Registry, tags: set<string>): set<string> {
    UntagSet(reg) * tags
  }

  /** The migrations a checkpoint with these tags still needs. */
  function ToApply(reg: Registry, tags: set<string>): set<string> {
    ToAdd(reg, tags) + ToRemove(reg, tags)
  }

  /** All dependencies are among the tags. */
  predicate DependsWithin(script: Script, tags: set<string>) {
    forall i :: 0 <= i < |script.depends| ==> script.depends[i] in tags
  }

  method Ready(script: Script, tags: set<string>) returns (ready: bool)
    ensures ready <==> DependsWithin(script, tags)
  {
    for i := 0 to |script.depends|
      invariant forall j :: 0 <= j < i ==> script.depends[j] in tags
    {
      if script.depends[i] !in tags {
        return false;
      }
    }
    return true;
  }

  /** The pending migrations whose dependencies are met at the start of a round. */
  function ReadySet(reg: Registry, pending: set<string>, tags: set<string>): set<string>
    requires pending <= reg.Keys
  {
    set t | t in pending && DependsWithin(reg[t], tags)
  }

  method FindReady(reg: Registry, pending: set<string>, tags: set<string>) returns (ready: set<string>)
    requires pending <= reg.Keys
    ensures ready == ReadySet(reg, pending, tags) && ready <= pending
  {
    ready := {};
    var unchecked := pending;
    while unchecked != {}
      invariant unchecked <= pending && ready == ReadySet(reg, pending - unchecked, tags)
      decreases unchecked
    {
      var t :| t in unchecked;
      var isReady := Ready(reg[t], tags);
      ReadySetNext(reg, pending, unchecked, tags, t);
      if isReady {
        ready := ready + {t};
      }
      unchecked := unchecked - {t};
    }
    assert pending - {} == pending;
  }

  /** The tags after a set of migrations has run, in whatever order. */
  function Applied(reg: Registry, tags: set<string>, ran: set<string>): set<string> {
    (tags + (ran * TagSet(reg))) - (ran * UntagSet(reg))
  }

  datatype Outcome = Done(tags: set<string>) | Stuck(tags: set<string>, pending: set<string>)

  /** The rounds as a function of the starting tags: no choice of order is left in it. */
  function Rounds(reg: Registry, pending: set<string>, tags: set<string>): Outcome
    requires pending <= reg.Keys
    decreases |pending|
  {
    if pending == {} then Done(tags)
    else
      var ready := ReadySet(reg, pending, tags);
      if ready == {} then Stuck(tags, pending)
      else
        FewerPending(pending, ready);
        Rounds(reg, pending - ready, Applied(reg, tags, ready))
  }

  lemma {:induction false} FewerPending(pending: set<string>, ready: set<string>)
    requires ready <= pending && ready != {}
    ensures |pending - ready| < |pending|
  {
    assert pending == (pending - ready) + ready;
    assert (pending - ready) * ready == {};
    assert |pending| == |pending - ready| + |ready|;
  }

  ghost function Elements(s: seq<string>): set<string> {
    set t | t in s
  }

  predicate NoRepeats(s: seq<string>) {
    forall i, j :: 0 <= i < j < |s| ==> s[i] != s[j]
  }

  // ---------- Layers ----------

  /** The migrations of smaller depth. */
  function Before(depth: map<string, nat>, r: nat): set<string> {
    set t | t in depth && depth[t] < r
  }

  function Layer(depth: map<string, nat>, r: nat): set<string> {
    set t | t in depth && depth[t] == r
  }

  /** One more than the largest depth of the tags to be added that t depends on. */
  ghost predicate DepthAt(reg: Registry, start: set<string>, depth: map<string, nat>, t: string)
    requires t in depth && t in reg
  {
    && depth[t] >= 1
    && (forall d :: d in reg[t].depends && d in ToAdd(reg, start) ==> d in depth && depth[d] < depth[t])
    && (depth[t] == 1 ||
        exists d :: d in reg[t].depends && d in ToAdd(reg, start) && d in depth && depth[d] + 1 == depth[t])
  }

  /** Everything t depends on is there at the start or gets added. */
  ghost predicate DependsOnKnown(reg: Registry, start: set<string>, t: string)
    requires t in reg
  {
    forall d :: d in reg[t].depends ==> d in start + TagSet(reg)
  }

  /** No tag that t depends on is removed at a smaller depth. */
  ghost predicate RemovalsWait(reg: Registry, start: set<string>, depth: map<string, nat>, t: string)
    requires t in depth && t in reg
  {
    forall d :: d in reg[t].depends && d in ToRemove(reg, start) && d in depth ==> depth[t] <= depth[d]
  }

  ghost predicate LayerAt(reg: Registry, start: set<string>, depth: map<string, nat>, t: string)
    requires t in depth
  {
    t in reg && DepthAt(reg, start, depth, t) && DependsOnKnown(reg, start, t) && RemovalsWait(reg, start, depth, t)
  }

  /** The pending migrations have depths, and no dependency is unknown or removed too early. */
  ghost predicate Layered(reg: Registry, start: set<string>, depth: map<string, nat>) {
    depth.Keys == ToApply(reg, start) && forall t :: t in depth ==> LayerAt(reg, start, depth, t)
  }

  lemma LayeredDomain(reg: Registry, start: set<string>, depth: map<string, nat>)
    requires Layered(reg, start, depth)
    ensures depth.Keys == ToApply(reg, start) && depth.Keys <= reg.Keys
  {
  }

  /** A tag to be added is less deep than what depends on it. */
  lemma AddedBefore(reg: Registry, start: set<string>, depth: map<string, nat>, t: string, d: string)
    requires Layered(reg, start, depth) && t in depth && t in reg && d in reg[t].depends && d in ToAdd(reg, start)
    ensures d in depth && 1 <= depth[d] < depth[t]
  {
    assert LayerAt(reg, start, depth, t);
    assert LayerAt(reg, start, depth, d);
  }

  /** Behind the first layer there is a tag to be added one layer up. */
  lemma AddedJustBefore(reg: Registry, start: set<string>, depth: map<string, nat>, t: string) returns (d: string)
    requires Layered(reg, start, depth) && t in depth && depth[t] > 1
    ensures t in reg && d in reg[t].depends && d in ToAdd(reg, start) && d in depth && depth[d] + 1 == depth[t]
  {
    assert LayerAt(reg, start, depth, t);
    d :| d in reg[t].depends && d in ToAdd(reg, start) && d in depth && depth[d] + 1 == depth[t];
  }

  /** A tag to be removed is no less deep than what depends on it. */
  lemma RemovedAfter(reg: Registry, start: set<string>, depth: map<string, nat>, t: string, d: string)
    requires Layered(reg, start, depth) && t in depth && t in reg && d in reg[t].depends && d in ToRemove(reg, start)
    ensures d in depth && depth[t] <= depth[d]
  {
    assert LayerAt(reg, start, depth, t);
  }

  lemma DepthPositive(reg: Registry, start: set<string>, depth: map<string, nat>, t: string)
    requires Layered(reg, start, depth) && t in depth
    ensures depth[t] >= 1
  {
    assert LayerAt(reg, start, depth, t);
  }

  lemma {:induction false} DepthAtMost(reg: Registry, start: set<string>, a: map<string, nat>, b: map<string, nat>,
                                       t: string)
    requires Layered(reg, start, a) && Layered(reg, start, b) && t in a
    ensures t in b && a[t] <= b[t]
    decreases a[t]
  {
    hide Layered, ToAdd, ToApply;
    LayeredDomain(reg, start, a);
    LayeredDomain(reg, start, b);
    DepthPositive(reg, start, b, t);
    if a[t] > 1 {
      var d := AddedJustBefore(reg, start, a, t);
      DepthAtMost(reg, start, a, b, d);
      AddedBefore(reg, start, b, t, d);
    }
  }

  /** There is at most one way to assign depths. */
  lemma DepthUnique(reg: Registry, start: set<string>, a: map<string, nat>, b: map<string, nat>)
    requires Layered(reg, start, a) && Layered(reg, start, b)
    ensures a == b
  {
    hide Layered;
    LayeredDomain(reg, start, a);
    LayeredDomain(reg, start, b);
    forall t | t in a
      ensures t in b && a[t] == b[t]
    {
      DepthAtMost(reg, start, a, b, t);
      DepthAtMost(reg, start, b, a, t);
    }
  }

  /** When its layer comes up, a migration finds all its dependencies. */
  lemma LayerIsReady(reg: Registry, start: set<string>, depth: map<string, nat>, t: string)
    requires Layered(reg, start, depth) && t in depth
    ensures t in reg && DependsWithin(reg[t], Applied(reg, start, Before(depth, depth[t])))
  {
    assert LayerAt(reg, start, depth, t);
    forall i | 0 <= i < |reg[t].depends|
      ensures reg[t].depends[i] in Applied(reg, start, Before(depth, depth[t]))
    {
      var d := reg[t].depends[i];
      assert d in reg[t].depends;
    }
  }

  /** Before its layer comes up, it does not. */
  lemma LayerIsNotReadyEarlier(reg: Registry, start: set<string>, depth: map<string, nat>, t: string, r: nat)
    requires Layered(reg, start, depth) && t in depth && 1 <= r < depth[t]
    ensures t in reg && !DependsWithin(reg[t], Applied(reg, start, Before(depth, r)))
  {
    hide Layered;
    var d := AddedJustBefore(reg, start, depth, t);
    assert d !in Applied(reg, start, Before(depth, r));
  }

  /** A round runs exactly one layer. */
  lemma RoundIsLayer(reg: Registry, start: set<string>, depth: map<string, nat>, r: nat)
    requires Layered(reg, start, depth) && r >= 1 && depth.Keys <= reg.Keys
    ensures ReadySet(reg, depth.Keys - Before(depth, r), Applied(reg, start, Before(depth, r))) == Layer(depth, r)
  {
    hide Layered, Applied;
    forall t | t in depth && depth[t] >= r
      ensures DependsWithin(reg[t], Applied(reg, start, Before(depth, r))) <==> depth[t] == r
    {
      if depth[t] == r {
        LayerIsReady(reg, start, depth, t);
      } else {
        LayerIsNotReadyEarlier(reg, start, depth, t, r);
      }
    }
  }

  /** No layer below an occupied one is empty. */
  lemma {:induction false} LayersHaveNoGap(reg: Registry, start: set<string>, depth: map<string, nat>, t: string,
                                           r: nat) returns (u: string)
    requires Layered(reg, start, depth) && t in depth && 1 <= r <= depth[t]
    ensures u in depth && depth[u] == r
    decreases depth[t]
  {
    hide Layered;
    if depth[t] == r {
      u := t;
    } else {
      var d := AddedJustBefore(reg, start, depth, t);
      u := LayersHaveNoGap(reg, start, depth, d, r);
    }
  }

  lemma RunSoFar(reg: Registry, start: set<string>, depth: map<string, nat>, r: nat, ready: set<string>)
    requires Before(depth, r + 1) == Before(depth, r) + ready && Before(depth, r) !! ready
    ensures Applied(reg, Applied(reg, start, Before(depth, r)), ready) == Applied(reg, start, Before(depth, r + 1))
  {
    AppliedTwice(reg, start, Before(depth, r), ready);
  }

  /** The rounds run through the layers and finish. */
  lemma {:induction false} LayeredMeansDone(reg: Registry, start: set<string>, depth: map<string, nat>, r: nat)
    requires Layered(reg, start, depth) && depth.Keys <= reg.Keys && r >= 1
    ensures Rounds(reg, depth.Keys - Before(depth, r), Applied(reg, start, Before(depth, r))).Done?
    decreases |depth.Keys - Before(depth, r)|
  {
    hide Layered, Applied, ReadySet;
    var pending, tags := depth.Keys - Before(depth, r), Applied(reg, start, Before(depth, r));
    RoundsUnfold(reg, pending, tags);
    if pending != {} {
      var ready := ReadySet(reg, pending, tags);
      RoundIsLayer(reg, start, depth, r);
      ReadyIsPending(reg, pending, tags);
      var t :| t in pending;
      var u := LayersHaveNoGap(reg, start, depth, t, r);
      assert u in ready;
      assert Before(depth, r + 1) == Before(depth, r) + ready;
      assert depth.Keys - Before(depth, r + 1) == pending - ready;
      RunSoFar(reg, start, depth, r, ready);
      FewerPending(pending, ready);
      LayeredMeansDone(reg, start, depth, r + 1);
    }
  }

  lemma ReadyIsPending(reg: Registry, pending: set<string>, tags: set<string>)
    requires pending <= reg.Keys
    ensures ReadySet(reg, pending, tags) <= pending
  {
  }

  // ---------- What holds between rounds ----------

  /** After r - 1 rounds: those run are layered by round, and those pending were not ready a round ago. */
  ghost predicate Between(reg: Registry, start: set<string>, pending: set<string>, tags: set<string>,
                          r: nat, depth: map<string, nat>)
  {
    && r >= 1 && pending <= ToApply(reg, start) && pending <= reg.Keys
    && depth.Keys == ToApply(reg, start) - pending && tags == Applied(reg, start, depth.Keys)
    && (forall t :: t in depth ==> depth[t] < r && LayerAt(reg, start, depth, t))
    && (r > 1 ==> forall t :: t in pending ==> !DependsWithin(reg[t], Applied(reg, start, Before(depth, r - 1))))
  }

  /** The depths after another round. */
  function Deeper(depth: map<string, nat>, ready: set<string>, r: nat): map<string, nat> {
    depth + map t | t in ready :: r
  }

  lemma BetweenStarts(reg: Registry, start: set<string>)
    ensures Between(reg, start, ToApply(reg, start), start, 1, map[])
  {
    AppliedNone(reg, start);
    assert ToApply(reg, start) - ToApply(reg, start) == {};
  }

  /** A migration that becomes ready in round r depends on one that was added the round before. */
  lemma WaitedFor(reg: Registry, start: set<string>, pending: set<string>, tags: set<string>, r: nat,
                  depth: map<string, nat>, t: string) returns (d: string)
    requires Between(reg, start, pending, tags, r, depth) && r > 1 && t in pending && DependsWithin(reg[t], tags)
    ensures d in reg[t].depends && d in ToAdd(reg, start) && d in depth && depth[d] + 1 == r
  {
    var i :| 0 <= i < |reg[t].depends| && reg[t].depends[i] !in Applied(reg, start, Before(depth, r - 1));
    d := reg[t].depends[i];
    assert d in tags;
  }

  lemma NewLayer(reg: Registry, start: set<string>, pending: set<string>, tags: set<string>, r: nat,
                 depth: map<string, nat>, t: string)
    requires Between(reg, start, pending, tags, r, depth) && t in ReadySet(reg, pending, tags)
    ensures LayerAt(reg, start, Deeper(depth, ReadySet(reg, pending, tags), r), t)
  {
    var next := Deeper(depth, ReadySet(reg, pending, tags), r);
    forall d | d in reg[t].depends
      ensures d in tags
    {
      var i :| 0 <= i < |reg[t].depends| && reg[t].depends[i] == d;
    }
    if r > 1 {
      var d := WaitedFor(reg, start, pending, tags, r, depth, t);
      assert next[d] + 1 == next[t];
    }
    assert DepthAt(reg, start, next, t);
  }

  lemma OldLayer(reg: Registry, start: set<string>, pending: set<string>, tags: set<string>, r: nat,
                 depth: map<string, nat>, ready: set<string>, t: string)
    requires Between(reg, start, pending, tags, r, depth) && ready <= pending && t in depth
    ensures LayerAt(reg, start, Deeper(depth, ready, r), t)
  {
    hide ToAdd, ToRemove, Applied, DependsWithin;
    var next := Deeper(depth, ready, r);
    assert LayerAt(reg, start, depth, t);
    assert forall x :: x in depth ==> x in next && next[x] == depth[x];
    if depth[t] > 1 {
      var d :| d in reg[t].depends && d in ToAdd(reg, start) && d in depth && depth[d] + 1 == depth[t];
      assert next[d] + 1 == next[t];
    }
    assert DepthAt(reg, start, next, t);
  }

  lemma BetweenStep(reg: Registry, start: set<string>, pending: set<string>, tags: set<string>, r: nat,
                    depth: map<string, nat>)
    requires Between(reg, start, pending, tags, r, depth)
    ensures var ready := ReadySet(reg, pending, tags);
      Between(reg, start, pending - ready, Applied(reg, tags, ready), r + 1, Deeper(depth, ready, r))
  {
    hide LayerAt, Applied, ToApply;
    var ready := ReadySet(reg, pending, tags);
    var next := Deeper(depth, ready, r);
    forall t | t in next
      ensures LayerAt(reg, start, next, t)
    {
      if t in ready {
        NewLayer(reg, start, pending, tags, r, depth, t);
      } else {
        OldLayer(reg, start, pending, tags, r, depth, ready, t);
      }
    }
    AppliedTwice(reg, start, depth.Keys, ready);
    assert next.Keys == depth.Keys + ready;
    assert Before(next, r) == depth.Keys;
  }

  lemma BetweenEnds(reg: Registry, start: set<string>, tags: set<string>, r: nat, depth: map<string, nat>)
    requires Between(reg, start, {}, tags, r, depth)
    ensures Layered(reg, start, depth) && tags == (start + TagSet(reg)) - UntagSet(reg)
  {
    assert ToApply(reg, start) - {} == ToApply(reg, start);
  }

  lemma {:induction false} DoneMeansLayered(reg: Registry, start: set<string>, pending: set<string>, tags: set<string>,
                                            r: nat, depth: map<string, nat>) returns (final: map<string, nat>)
    requires Between(reg, start, pending, tags, r, depth) && Rounds(reg, pending, tags).Done?
    ensures Layered(reg, start, final)
    decreases |pending|
  {
    hide Between, Layered, Rounds, Applied, ReadySet;
    PendingKnown(reg, start, pending, tags, r, depth);
    RoundsUnfold(reg, pending, tags);
    if pending == {} {
      BetweenEnds(reg, start, tags, r, depth);
      final := depth;
    } else {
      var ready := ReadySet(reg, pending, tags);
      ReadyIsPending(reg, pending, tags);
      BetweenStep(reg, start, pending, tags, r, depth);
      FewerPending(pending, ready);
      final := DoneMeansLayered(reg, start, pending - ready, Applied(reg, tags, ready), r + 1, Deeper(depth, ready, r));
    }
  }

  lemma PendingKnown(reg: Registry, start: set<string>, pending: set<string>, tags: set<string>, r: nat,
                     depth: map<string, nat>)
    requires Between(reg, start, pending, tags, r, depth)
    ensures pending <= reg.Keys && pending * UntagSet(reg) <= tags
  {
  }

  /** For any mix of upgraders and downgraders: migration succeeds exactly when the pending migrations are layered. */
  lemma DoneExactly(reg: Registry, start: set<string>)
    ensures Rounds(reg, ToApply(reg, start), start).Done? <==> exists depth :: Layered(reg, start, depth)
  {
    hide Rounds, Layered;
    if Rounds(reg, ToApply(reg, start), start).Done? {
      BetweenStarts(reg, start);
      var depth := DoneMeansLayered(reg, start, ToApply(reg, start), start, 1, map[]);
    }
    if depth :| Layered(reg, start, depth) {
      FirstRound(reg, start, depth);
      LayeredMeansDone(reg, start, depth, 1);
    }
  }

  lemma FirstRound(reg: Registry, start: set<string>, depth: map<string, nat>)
    requires Layered(reg, start, depth)
    ensures depth.Keys == ToApply(reg, start) && depth.Keys - Before(depth, 1) == ToApply(reg, start)
    ensures Applied(reg, start, Before(depth, 1)) == start
  {
    hide Layered;
    LayeredDomain(reg, start, depth);
    forall t | t in depth
      ensures depth[t] >= 1
    {
      DepthPositive(reg, start, depth, t);
    }
    assert Before(depth, 1) == {};
    AppliedNone(reg, start);
  }

  // ---------- Orders of single migrations ----------

  /** Every migration of the list finds its dependencies among the tags that those before it leave. */
  ghost predicate RespectsDependencies(reg: Registry, tags: set<string>, order: seq<string>) {
    forall i :: 0 <= i < |order| ==>
      order[i] in reg && DependsWithin(reg[order[i]], Applied(reg, tags, Elements(order[..i])))
  }

  /** A way to run all pending migrations one by one, each with its dependencies met. */
  ghost predicate IsSchedule(reg: Registry, tags: set<string>, order: seq<string>) {
    NoRepeats(order) && Elements(order) == ToApply(reg, tags) && RespectsDependencies(reg, tags, order)
  }

  /** The migrations are listed layer by layer. */
  predicate Ascending(order: seq<string>, depth: map<string, nat>) {
    && (forall i :: 0 <= i < |order| ==> order[i] in depth)
    && (forall i, j :: 0 <= i < j < |order| ==> depth[order[i]] <= depth[order[j]])
  }

  /** Running the layers one after the other, in any order within a layer, runs every pending migration once. */
  ghost predicate RunsLayers(reg: Registry, start: set<string>, depth: map<string, nat>, order: seq<string>) {
    NoRepeats(order) && Elements(order) == ToApply(reg, start) && Layered(reg, start, depth) && Ascending(order, depth)
  }

  lemma AscendingGrows(history: seq<string>, depth: map<string, nat>, ran: seq<string>, r: nat)
    requires Ascending(history, depth) && forall t :: t in depth ==> depth[t] < r
    requires forall t :: t in depth ==> t !in ran
    ensures Ascending(history + ran, Deeper(depth, Elements(ran), r))
  {
    var all, next := history + ran, Deeper(depth, Elements(ran), r);
    forall i | 0 <= i < |all|
      ensures all[i] in next && next[all[i]] == if i < |history| then depth[history[i]] else r
    {
      if i >= |history| {
        assert all[i] == ran[i - |history|] && all[i] in Elements(ran);
      }
    }
  }

  /** With upgraders only, running layer by layer is a schedule. */
  lemma LayersAreSchedule(reg: Registry, start: set<string>, depth: map<string, nat>, order: seq<string>)
    requires UntagSet(reg) == {} && RunsLayers(reg, start, depth, order)
    ensures IsSchedule(reg, start, order)
  {
    hide Layered;
    forall i | 0 <= i < |order|
      ensures order[i] in reg && DependsWithin(reg[order[i]], Applied(reg, start, Elements(order[..i])))
    {
      var t := order[i];
      LayerIsReady(reg, start, depth, t);
      forall x | x in Before(depth, depth[t])
        ensures x in Elements(order[..i])
      {
        DomainRuns(reg, start, depth, order, x);
        var j :| 0 <= j < |order| && order[j] == x;
        assert j < i;
        assert order[..i][j] == x;
      }
      AppliedGrows(reg, start, Before(depth, depth[t]), Elements(order[..i]));
      WithinMore(reg[t], Applied(reg, start, Before(depth, depth[t])), Applied(reg, start, Elements(order[..i])));
    }
  }

  lemma DomainRuns(reg: Registry, start: set<string>, depth: map<string, nat>, order: seq<string>, x: string)
    requires RunsLayers(reg, start, depth, order) && x in depth
    ensures x in order
  {
    assert x in Elements(order);
  }

  lemma AppliedGrows(reg: Registry, tags: set<string>, some: set<string>, more: set<string>)
    requires UntagSet(reg) == {} && some <= more
    ensures Applied(reg, tags, some) <= Applied(reg, tags, more)
  {
  }

  /** A checkpoint being migrated. */
  class Checkpoint {
    var tags: set<string>
    /** The migrations run so far, in order. */
    var history: seq<string>

    constructor (tags: set<string>)
      ensures this.tags == tags && history == []
    {
      this.tags, history := tags, [];
    }

    /** Runs one migration; removing a tag demands that it is there. */
    method Update(tag: string, script: Script)
      requires !script.isUpgrader ==> tag in tags
      modifies this
      ensures tags == if script.isUpgrader then old(tags) + {tag} else old(tags) - {tag}
      ensures history == old(history) + [tag]
    {
      if script.isUpgrader {
        tags := tags + {tag};
      } else {
        tags := tags - {tag};
      }
      history := history + [tag];
    }

    /** Runs a set of ready migrations in an arbitrary order, which it reports. */
    method RunRound(reg: Registry, ready: set<string>) returns (ran: seq<string>)
      requires ready <= reg.Keys && ready * UntagSet(reg) <= tags
      modifies this
      ensures tags == Applied(reg, old(tags), ready)
      ensures history == old(history) + ran && NoRepeats(ran) && Elements(ran) == ready
    {
      hide Applied, NoRepeats, Elements;
      var left := ready;
      ran := [];
      AppliedNone(reg, tags);
      assert ready - ready == {};
      while left != {}
        invariant left <= ready
        invariant left * UntagSet(reg) <= tags
        invariant tags == Applied(reg, old(tags), ready - left)
        invariant history == old(history) + ran && NoRepeats(ran) && Elements(ran) == ready - left
        decreases left
      {
        var tag :| tag in left;
        AppliedNext(reg, old(tags), ready - left, tag);
        AppendFresh(ran, tag, ready - left);
        Update(tag, reg[tag]);
        ran := ran + [tag];
        assert ready - (left - {tag}) == (ready - left) + {tag};
        left := left - {tag};
      }
      assert ready - {} == ready;
    }

    /** Runs rounds until nothing is pending, or gives up when nothing is ready. */
    method Migrate(reg: Registry) returns (ok: bool)
      requires history == []
      modifies this
      ensures Rounds(reg, ToApply(reg, old(tags)), old(tags)).Done? <==> ok
      ensures ok ==> Rounds(reg, ToApply(reg, old(tags)), old(tags)) == Done(tags)
      ensures ok ==> exists depth :: RunsLayers(reg, old(tags), depth, history)
      ensures ok ==> tags == (old(tags) + TagSet(reg)) - UntagSet(reg)
    {
      hide Rounds, Between, ReadySet, Applied, Layered, Elements, NoRepeats, Ascending, ToApply;
      var pending := ToApply(reg, tags);
      ghost var depth: map<string, nat>, r: nat := map[], 1;
      BetweenStarts(reg, tags);
      NothingRun(reg, tags);
      while pending != {}
        invariant Between(reg, old(tags), pending, tags, r, depth)
        invariant pending <= reg.Keys
        invariant NoRepeats(history) && Elements(history) == depth.Keys && Ascending(history, depth)
        invariant Rounds(reg, pending, tags) == Rounds(reg, ToApply(reg, old(tags)), old(tags))
        decreases |pending|
      {
        var ready := FindReady(reg, pending, tags);
        RoundsUnfold(reg, pending, tags);
        if ready == {} {
          return false;
        }
        PendingKnown(reg, old(tags), pending, tags, r, depth);
        BetweenStep(reg, old(tags), pending, tags, r, depth);
        ghost var history0, tags0 := history, tags;
        var ran := RunRound(reg, ready);
        HistoryStep(reg, old(tags), pending, tags0, r, depth, history0, ran);
        FewerPending(pending, ready);
        pending, r, depth := pending - ready, r + 1, Deeper(depth, ready, r);
      }
      RoundsUnfold(reg, pending, tags);
      BetweenEnds(reg, old(tags), tags, r, depth);
      LayeredDomain(reg, old(tags), depth);
      assert RunsLayers(reg, old(tags), depth, history);
      ok := true;
    }
  }

  lemma NothingRun(reg: Registry, tags: set<string>)
    ensures NoRepeats([]) && Elements([]) == {} && Ascending([], map[]) && ToApply(reg, tags) <= reg.Keys
  {
  }

  lemma HistoryStep(reg: Registry, start: set<string>, pending: set<string>, tags: set<string>, r: nat,
                    depth: map<string, nat>, history: seq<string>, ran: seq<string>)
    requires Between(reg, start, pending, tags, r, depth)
    requires NoRepeats(history) && Elements(history) == depth.Keys && Ascending(history, depth)
    requires NoRepeats(ran) && Elements(ran) <= pending
    ensures NoRepeats(history + ran) && Elements(history + ran) == Deeper(depth, Elements(ran), r).Keys
    ensures Ascending(history + ran, Deeper(depth, Elements(ran), r))
  {
    hide LayerAt, Applied, NoRepeats, Ascending;
    ConcatFresh(history, ran);
    forall t | t in depth
      ensures t !in ran
    {
      assert t !in Elements(ran);
    }
    AscendingGrows(history, depth, ran, r);
  }

  lemma ReadySetNext(reg: Registry, pending: set<string>, unchecked: set<string>, tags: set<string>, t: string)
    requires unchecked <= pending <= reg.Keys && t in unchecked
    ensures ReadySet(reg, pending - (unchecked - {t}), tags)
         == ReadySet(reg, pending - unchecked, tags) + if DependsWithin(reg[t], tags) then {t} else {}
  {
  }

  lemma RoundsUnfold(reg: Registry, pending: set<string>, tags: set<string>)
    requires pending <= reg.Keys
    ensures pending == {} ==> Rounds(reg, pending, tags) == Done(tags)
    ensures pending != {} && ReadySet(reg, pending, tags) == {} ==> Rounds(reg, pending, tags) == Stuck(tags, pending)
    ensures pending != {} && ReadySet(reg, pending, tags) != {} ==>
      Rounds(reg, pending, tags)
      == Rounds(reg, pending - ReadySet(reg, pending, tags), Applied(reg, tags, ReadySet(reg, pending, tags)))
  {
  }

  lemma AppliedTwice(reg: Registry, tags: set<string>, a: set<string>, b: set<string>)
    requires a !! b
    ensures Applied(reg, Applied(reg, tags, a), b) == Applied(reg, tags, a + b)
  {
  }

  lemma ConcatFresh(a: seq<string>, b: seq<string>)
    requires NoRepeats(a) && NoRepeats(b) && Elements(a) !! Elements(b)
    ensures NoRepeats(a + b) && Elements(a + b) == Elements(a) + Elements(b)
  {
    var c := a + b;
    forall i, j | 0 <= i < j < |c|
      ensures c[i] != c[j]
    {
      if i < |a| <= j {
        assert a[i] in Elements(a) && b[j - |a|] in Elements(b);
      }
    }
    assert forall t :: t in c <==> t in a || t in b;
  }

  // ---------- What the migration achieves ----------

  /** A migrated checkpoint needs no further migration. */
  lemma MigratedIsComplete(reg: Registry, tags: set<string>)
    ensures ToApply(reg, (tags + TagSet(reg)) - UntagSet(reg)) == {}
  {
  }

  /** While some schedule of upgrades has a migration left, its first one left is ready. */
  lemma ScheduleNeverStuck(reg: Registry, start: set<string>, order: seq<string>, pending: set<string>,
                           tags: set<string>)
    requires UntagSet(reg) == {} && IsSchedule(reg, start, order)
    requires pending != {} && pending <= ToApply(reg, start) && pending <= reg.Keys
    requires tags == Applied(reg, start, ToApply(reg, start) - pending)
    ensures ReadySet(reg, pending, tags) != {}
  {
    hide Applied, ToApply;
    var some :| some in pending;
    assert some in Elements(order);
    var p :| 0 <= p < |order| && order[p] == some;
    var first := FirstPending(order, pending, p);
    EarlierHaveRun(reg, start, order, pending, tags, first);
    WithinMore(reg[order[first]], Applied(reg, start, Elements(order[..first])), tags);
    assert order[first] in ReadySet(reg, pending, tags);
  }

  lemma WithinMore(script: Script, some: set<string>, more: set<string>)
    requires DependsWithin(script, some) && some <= more
    ensures DependsWithin(script, more)
  {
  }

  lemma EarlierHaveRun(reg: Registry, start: set<string>, order: seq<string>, pending: set<string>, tags: set<string>,
                       first: nat)
    requires UntagSet(reg) == {} && Elements(order) == ToApply(reg, start) && first <= |order|
    requires forall i :: 0 <= i < first ==> order[i] !in pending
    requires tags == Applied(reg, start, ToApply(reg, start) - pending)
    ensures Applied(reg, start, Elements(order[..first])) <= tags
  {
    forall t | t in Elements(order[..first])
      ensures t in tags
    {
      var i :| 0 <= i < first && order[..first][i] == t;
      assert t == order[i] && t in Elements(order);
    }
  }

  lemma FirstPending(order: seq<string>, pending: set<string>, p: nat) returns (first: nat)
    requires p < |order| && order[p] in pending
    ensures first <= p && order[first] in pending && forall i :: 0 <= i < first ==> order[i] !in pending
  {
    first := 0;
    while order[first] !in pending
      invariant first <= p && forall i :: 0 <= i < first ==> order[i] !in pending
      decreases p - first
    {
      first := first + 1;
    }
  }

  lemma {:induction false} ScheduleMeansDone(reg: Registry, start: set<string>, order: seq<string>,
                                             pending: set<string>, tags: set<string>)
    requires UntagSet(reg) == {} && IsSchedule(reg, start, order)
    requires pending <= ToApply(reg, start) && pending <= reg.Keys
    requires tags == Applied(reg, start, ToApply(reg, start) - pending)
    ensures Rounds(reg, pending, tags).Done?
    decreases |pending|
  {
    hide IsSchedule, Applied, ToApply;
    if pending != {} {
      ScheduleNeverStuck(reg, start, order, pending, tags);
      var ready := ReadySet(reg, pending, tags);
      FewerPending(pending, ready);
      var all := ToApply(reg, start);
      AppliedTwice(reg, start, all - pending, ready);
      assert all - (pending - ready) == (all - pending) + ready;
      ScheduleMeansDone(reg, start, order, pending - ready, Applied(reg, tags, ready));
    }
  }

  /** With upgraders only, any possible schedule makes the rounds succeed. */
  lemma UpgradesSucceedIfPossible(reg: Registry, start: set<string>, order: seq<string>)
    requires UntagSet(reg) == {} && IsSchedule(reg, start, order)
    ensures Rounds(reg, ToApply(reg, start), start).Done?
  {
    AppliedNone(reg, start);
    assert ToApply(reg, start) - ToApply(reg, start) == {};
    ScheduleMeansDone(reg, start, order, ToApply(reg, start), start);
  }

  lemma {:induction false} Enumerate(s: set<string>) returns (list: seq<string>)
    ensures NoRepeats(list) && Elements(list) == s
  {
    if s == {} {
      list := [];
    } else {
      var x :| x in s;
      var rest := Enumerate(s - {x});
      AppendFresh(rest, x, s - {x});
      list := rest + [x];
    }
  }

  /** The migrations of depth below r, layer by layer. */
  lemma {:induction false} ListLayers(depth: map<string, nat>, r: nat) returns (order: seq<string>)
    ensures NoRepeats(order) && Elements(order) == Before(depth, r) && Ascending(order, depth)
  {
    hide NoRepeats;
    order := [];
    if r == 0 {
      EmptyList(depth);
    } else {
      var front := ListLayers(depth, r - 1);
      var layer := Enumerate(Layer(depth, r - 1));
      ConcatFresh(front, layer);
      order := front + layer;
      forall i | 0 <= i < |order|
        ensures order[i] in depth && (if i < |front| then depth[order[i]] < r - 1 else depth[order[i]] == r - 1)
      {
        if i < |front| {
          assert order[i] == front[i] && order[i] in Elements(front);
        } else {
          assert order[i] == layer[i - |front|] && order[i] in Elements(layer);
        }
      }
      assert forall i, j :: 0 <= i < j < |front| ==> order[i] == front[i] && order[j] == front[j];
    }
  }

  lemma EmptyList(depth: map<string, nat>)
    ensures NoRepeats([]) && Elements([]) == Before(depth, 0) && Ascending([], depth)
  {
  }

  lemma {:induction false} DepthBound(depth: map<string, nat>, keys: set<string>) returns (r: nat)
    requires keys <= depth.Keys
    ensures forall t :: t in keys ==> depth[t] < r
  {
    r := 0;
    if keys != {} {
      var t :| t in keys;
      r := DepthBound(depth, keys - {t});
      if depth[t] >= r {
        r := depth[t] + 1;
      }
    }
  }

  /** Layered migrations can be listed layer by layer. */
  lemma LayersHaveOrder(reg: Registry, start: set<string>, depth: map<string, nat>) returns (order: seq<string>)
    requires Layered(reg, start, depth)
    ensures RunsLayers(reg, start, depth, order)
  {
    hide Ascending, NoRepeats, LayerAt, ToApply;
    var r := DepthBound(depth, depth.Keys);
    order := ListLayers(depth, r);
    assert Before(depth, r) == depth.Keys;
  }

  /** With upgraders only, migration succeeds exactly when some dependency-respecting order exists. */
  lemma UpgradesSucceedExactlyWhenPossible(reg: Registry, start: set<string>)
    requires UntagSet(reg) == {}
    ensures Rounds(reg, ToApply(reg, start), start).Done? <==> exists order :: IsSchedule(reg, start, order)
  {
    hide IsSchedule, Rounds, Layered, RunsLayers, ToApply, UntagSet;
    DoneExactly(reg, start);
    if depth :| Layered(reg, start, depth) {
      var order := LayersHaveOrder(reg, start, depth);
      LayersAreSchedule(reg, start, depth, order);
    }
    if order :| IsSchedule(reg, start, order) {
      UpgradesSucceedIfPossible(reg, start, order);
    }
  }

  // ---------- Depending on tags that are removed ----------

  /**
   * Depending on a downgraded tag: the migration insists on the tag being
   * present, so once it is gone from the checkpoint the dependent script can
   * never run and the whole migration fails.
   */
  lemma AbsentDowngradeBlocks(reg: Registry, start: set<string>, t: string, dep: string)
    requires t in ToApply(reg, start) && dep in reg[t].depends
    requires dep !in start && dep !in TagSet(reg)
    ensures Rounds(reg, ToApply(reg, start), start).Stuck?
  {
    hide Rounds, Layered, TagSet;
    DoneExactly(reg, start);
    if depth :| Layered(reg, start, depth) {
      LayeredKnows(reg, start, depth, t, dep);
    }
  }

  lemma LayeredKnows(reg: Registry, start: set<string>, depth: map<string, nat>, t: string, dep: string)
    requires Layered(reg, start, depth) && t in ToApply(reg, start) && dep in reg[t].depends
    ensures dep in start + TagSet(reg)
  {
    assert LayerAt(reg, start, depth, t);
  }

  /** What has to wait for an addition cannot depend on a tag that is removed in the first round. */
  lemma EarlyRemovalBlocks(reg: Registry, start: set<string>, t: string, u: string, d: string)
    requires t in ToApply(reg, start) && u in reg[t].depends && u in ToAdd(reg, start)
    requires d in reg[t].depends && d in ToRemove(reg, start)
    requires forall x :: x in reg[d].depends ==> x !in ToAdd(reg, start)
    ensures Rounds(reg, ToApply(reg, start), start).Stuck?
  {
    hide Rounds, Layered, ToAdd, ToRemove;
    DoneExactly(reg, start);
    forall depth
      ensures !Layered(reg, start, depth)
    {
      if Layered(reg, start, depth) {
        LayeredDomain(reg, start, depth);
        AddedBefore(reg, start, depth, t, u);
        RemovedAfter(reg, start, depth, t, d);
        var x := AddedJustBefore(reg, start, depth, d);
      }
    }
  }

  /** A removal, and an upgrade that needs the removed tag and another upgrade. */
  const EARLY := map["u" := Script(true, []), "d" := Script(false, []), "t" := Script(true, ["u", "d"])]

  /** That single migrations could be scheduled is not enough: here the rounds remove d before t can run. */
  lemma ScheduleMayBeStuck()
    ensures IsSchedule(EARLY, {"d"}, ["u", "t", "d"])
    ensures Rounds(EARLY, ToApply(EARLY, {"d"}), {"d"}).Stuck?
  {
    hide Rounds;
    var order := ["u", "t", "d"];
    assert order[..0] == [] && order[..1] == ["u"] && order[..2] == ["u", "t"];
    assert EARLY["t"].depends[0] == "u" && EARLY["t"].depends[1] == "d";
    EarlyRemovalBlocks(EARLY, {"d"}, "t", "u", "d");
  }

  /** Each depends on the other, and both are removed. */
  const MUTUAL := map["a" := Script(false, ["b"]), "b" := Script(false, ["a"])]

  /** Nor is it necessary: a round removes both tags at once, although no order of single migrations respects both. */
  lemma MutualRemovalSucceeds()
    ensures Rounds(MUTUAL, ToApply(MUTUAL, {"a", "b"}), {"a", "b"}).Done?
    ensures forall order :: !IsSchedule(MUTUAL, {"a", "b"}, order)
  {
    hide Rounds, Layered, RespectsDependencies, Elements, NoRepeats;
    var start: set<string> := {"a", "b"};
    assert ToApply(MUTUAL, start) == start;
    var depth: map<string, nat> := map["a" := 1, "b" := 1];
    DoneExactly(MUTUAL, start);
    MutualIsLayered();
    forall order
      ensures !IsSchedule(MUTUAL, start, order)
    {
      if NoRepeats(order) && Elements(order) == start {
        NoMutualSchedule(order);
      }
    }
  }

  lemma MutualIsLayered()
    ensures Layered(MUTUAL, {"a", "b"}, map["a" := 1, "b" := 1])
  {
    var start: set<string> := {"a", "b"};
    assert ToApply(MUTUAL, start) == start && ToAdd(MUTUAL, start) == {};
  }

  lemma BothListed(order: seq<string>)
    requires NoRepeats(order) && Elements(order) == {"a", "b"}
    ensures |order| >= 2 && order[0] in {"a", "b"} && order[1] in {"a", "b"} && order[0] != order[1]
  {
    assert "a" in Elements(order) && "b" in Elements(order);
    assert |order| >= 2;
    assert order[0] in Elements(order) && order[1] in Elements(order);
  }

  lemma NoMutualSchedule(order: seq<string>)
    requires NoRepeats(order) && Elements(order) == {"a", "b"}
    ensures !RespectsDependencies(MUTUAL, {"a", "b"}, order)
  {
    BothListed(order);
    assert order[..1] == [order[0]] && order[0] in Elements(order[..1]);
    assert order[0] !in Applied(MUTUAL, {"a", "b"}, Elements(order[..1]));
    assert MUTUAL[order[1]].depends[0] == order[0];
    assert !DependsWithin(MUTUAL[order[1]], Applied(MUTUAL, {"a", "b"}, Elements(order[..1])));
  }

  lemma AppliedNone(reg: Registry, tags: set<string>)
    ensures Applied(reg, tags, {}) == tags
    ensures NoRepeats([]) && Elements([]) == {}
  {
  }

  lemma AppliedNext(reg: Registry, tags: set<string>, ran: set<string>, tag: string)
    requires tag in reg && tag !in ran
    ensures Applied(reg, tags, ran + {tag})
         == if reg[tag].isUpgrader then Applied(reg, tags, ran) + {tag} else Applied(reg, tags, ran) - {tag}
  {
  }

  lemma AppendFresh(ran: seq<string>, tag: string, elements: set<string>)
    requires NoRepeats(ran) && Elements(ran) == elements && tag !in elements
    ensures NoRepeats(ran + [tag]) && Elements(ran + [tag]) == elements + {tag}
  {
    assert tag !in ran;
    assert forall t :: t in ran + [tag] <==> t in ran || t == tag;
  }
}
