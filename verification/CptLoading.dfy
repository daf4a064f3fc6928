/** Loading migration scripts: names are resolved and forward dependencies turned around. */
module CptLoading {
  import opened Options
  import opened CptUpgrader

  /** A script as written: `forward` names the tags that are to depend on this one. */
  datatype Source = Source(tag: string, isUpgrader: bool, depends: seq<string>, forward: seq<string>)

  predicate TagsDistinct(sources: seq<Source>) {
    forall i, j :: 0 <= i < j < |sources| ==> sources[i].tag != sources[j].tag
  }

  function TagsOf(sources: seq<Source>): set<string> {
    set i | 0 <= i < |sources| :: sources[i].tag
  }

  /** Where the script with the tag stands; the length if there is none. */
  function IndexOf(table: seq<Source>, tag: string): (p: nat)
    ensures p <= |table| && (p < |table| ==> table[p].tag == tag)
    ensures forall i :: 0 <= i < p ==> table[i].tag != tag
  {
    if |table| == 0 || table[0].tag == tag then 0 else 1 + IndexOf(table[1..], tag)
  }

  /** Enters a script under its tag: it takes the place of an earlier one with that tag. */
  function Put(table: seq<Source>, x: Source): seq<Source> {
    var p := IndexOf(table, x.tag);
    if p < |table| then table[p := x] else table + [x]
  }

  /** The scripts by tag, in order of first appearance; the last one with a tag counts. */
  function ByTag(sources: seq<Source>): seq<Source> {
    if |sources| == 0 then [] else Put(ByTag(sources[..|sources| - 1]), sources[|sources| - 1])
  }

  /** x is the last script with its tag. */
  ghost predicate IsLast(sources: seq<Source>, x: Source) {
    exists i :: 0 <= i < |sources| && sources[i] == x && forall j :: i < j < |sources| ==> sources[j].tag != x.tag
  }

  lemma PutKeeps(table: seq<Source>, x: Source)
    requires TagsDistinct(table)
    ensures TagsDistinct(Put(table, x)) && TagsOf(Put(table, x)) == TagsOf(table) + {x.tag}
    ensures forall s :: s in Put(table, x) ==> s == x || (s in table && s.tag != x.tag)
  {
    hide IndexOf, TagsOf;
    var p, r := IndexOf(table, x.tag), Put(table, x);
    assert forall i :: 0 <= i < |r| ==> r[i] == if i == p then x else table[i];
    if p < |table| {
      SameTags(table, r);
      HasTag(table, p);
    } else {
      TagsNext(table, x);
    }
  }

  lemma SameTags(a: seq<Source>, b: seq<Source>)
    requires |a| == |b| && forall i :: 0 <= i < |a| ==> a[i].tag == b[i].tag
    ensures TagsOf(a) == TagsOf(b)
  {
    assert forall i :: 0 <= i < |a| ==> a[i].tag in TagsOf(b) && b[i].tag in TagsOf(a);
  }

  lemma LastGrows(sources: seq<Source>, x: Source, s: Source)
    requires s == x || (IsLast(sources, s) && s.tag != x.tag)
    ensures IsLast(sources + [x], s)
  {
    var all := sources + [x];
    if s == x {
      assert all[|sources|] == x;
    } else {
      var i :| 0 <= i < |sources| && sources[i] == s && forall j :: i < j < |sources| ==> sources[j].tag != s.tag;
      assert all[i] == s;
    }
  }

  /** The table has every tag once, under the last script that uses it. */
  lemma {:induction false} ByTagIsLast(sources: seq<Source>)
    ensures TagsDistinct(ByTag(sources)) && TagsOf(ByTag(sources)) == TagsOf(sources)
    ensures forall s :: s in ByTag(sources) ==> IsLast(sources, s)
  {
    if |sources| > 0 {
      var init, x := sources[..|sources| - 1], sources[|sources| - 1];
      assert sources == init + [x];
      ByTagIsLast(init);
      PutKeeps(ByTag(init), x);
      TagsNext(init, x);
      forall s | s in ByTag(sources)
        ensures IsLast(sources, s)
      {
        LastGrows(init, x, s);
      }
    }
  }

  lemma TagsNext(sources: seq<Source>, x: Source)
    ensures TagsOf(sources + [x]) == TagsOf(sources) + {x.tag}
  {
    var all := sources + [x];
    assert all[|sources|] == x;
    assert forall i :: 0 <= i < |sources| ==> all[i] == sources[i];
    assert forall i :: 0 <= i < |sources| ==> all[i].tag in TagsOf(all);
  }

  method Collect(sources: seq<Source>) returns (table: seq<Source>)
    ensures table == ByTag(sources)
  {
    table := [];
    for n := 0 to |sources|
      invariant table == ByTag(sources[..n])
    {
      var p := 0;
      while p < |table| && table[p].tag != sources[n].tag
        invariant p <= |table| && forall i :: 0 <= i < p ==> table[i].tag != sources[n].tag
      {
        p := p + 1;
      }
      assert p == IndexOf(table, sources[n].tag);
      assert sources[..n + 1][..n] == sources[..n];
      table := if p < |table| then table[p := sources[n]] else table + [sources[n]];
    }
    assert sources[..|sources|] == sources;
  }

  /** Every name a script mentions belongs to some script. */
  predicate NamesKnown(s: Source, tags: set<string>) {
    DependsKnown(s, tags) && ForwardKnown(s, tags)
  }

  predicate DependsKnown(s: Source, tags: set<string>) {
    forall k :: 0 <= k < |s.depends| ==> s.depends[k] in tags
  }

  predicate ForwardKnown(s: Source, tags: set<string>) {
    forall k :: 0 <= k < |s.forward| ==> s.forward[k] in tags
  }

  /** Script i depends on dep, by itself or because one of the first n scripts points at it. */
  ghost predicate DependsOn(sources: seq<Source>, i: nat, n: nat, dep: string)
    requires i < |sources| && n <= |sources|
  {
    dep in sources[i].depends || exists j :: 0 <= j < n && sources[j].tag == dep && sources[i].tag in sources[j].forward
  }

  /** The registry after the first n scripts, and k forward names of the next one, are resolved. */
  ghost predicate Resolving(reg: Registry, sources: seq<Source>, n: nat, k: nat)
    requires n < |sources| || (n == |sources| && k == 0)
    requires n < |sources| ==> k <= |sources[n].forward|
  {
    && reg.Keys == TagsOf(sources)
    && (forall i :: 0 <= i < |sources| ==>
          sources[i].tag in reg && reg[sources[i].tag].isUpgrader == sources[i].isUpgrader)
    && (forall i, dep :: 0 <= i < |sources| ==>
          (dep in reg[sources[i].tag].depends <==>
           DependsOn(sources, i, n, dep)
           || (k > 0 && dep == sources[n].tag && sources[i].tag in sources[n].forward[..k])))
  }

  /** Every script depends on what it names and on exactly the scripts that point at it. */
  ghost predicate Resolved(reg: Registry, sources: seq<Source>) {
    Resolving(reg, sources, |sources|, 0)
  }

  method Register(sources: seq<Source>) returns (reg: Registry)
    requires TagsDistinct(sources)
    ensures reg.Keys == TagsOf(sources)
    ensures forall i :: 0 <= i < |sources| ==>
      sources[i].tag in reg && reg[sources[i].tag] == Script(sources[i].isUpgrader, sources[i].depends)
  {
    reg := map[];
    for n := 0 to |sources|
      invariant forall t :: t in reg <==> exists i :: 0 <= i < n && sources[i].tag == t
      invariant forall i :: 0 <= i < n ==>
        sources[i].tag in reg && reg[sources[i].tag] == Script(sources[i].isUpgrader, sources[i].depends)
    {
      reg := reg[sources[n].tag := Script(sources[n].isUpgrader, sources[n].depends)];
    }
  }

  lemma ForwardStep(reg: Registry, sources: seq<Source>, n: nat, k: nat)
    requires TagsDistinct(sources) && n < |sources| && k < |sources[n].forward| && Resolving(reg, sources, n, k)
    requires sources[n].forward[k] in reg
    ensures var fd := sources[n].forward[k];
      Resolving(reg[fd := reg[fd].(depends := reg[fd].depends + [sources[n].tag])], sources, n, k + 1)
  {
    hide DependsOn;
    var fd, tag := sources[n].forward[k], sources[n].tag;
    var next := reg[fd := reg[fd].(depends := reg[fd].depends + [tag])];
    assert next.Keys == reg.Keys;
    assert sources[n].forward[..k + 1] == sources[n].forward[..k] + [fd];
    forall i, dep | 0 <= i < |sources|
      ensures dep in next[sources[i].tag].depends <==>
        DependsOn(sources, i, n, dep) || (dep == tag && sources[i].tag in sources[n].forward[..k + 1])
    {
      if sources[i].tag == fd {
        assert dep in next[fd].depends <==> dep in reg[fd].depends || dep == tag;
      }
    }
  }

  lemma ScriptDone(reg: Registry, sources: seq<Source>, n: nat)
    requires n < |sources| && Resolving(reg, sources, n, |sources[n].forward|)
    ensures Resolving(reg, sources, n + 1, 0)
  {
    var all := sources[n].forward;
    assert all[..|all|] == all;
    forall i, dep | 0 <= i < |sources|
      ensures DependsOn(sources, i, n + 1, dep) <==>
        DependsOn(sources, i, n, dep) || (|all| > 0 && dep == sources[n].tag && sources[i].tag in all)
    {
    }
  }

  /** The audit of a script's dependencies only ever fails on a name the script itself gives. */
  lemma AuditIsOwn(reg: Registry, sources: seq<Source>, n: nat)
    requires n < |sources| && Resolving(reg, sources, n + 1, 0)
    ensures (forall d :: d in reg[sources[n].tag].depends ==> d in reg)
       <==> (forall k :: 0 <= k < |sources[n].depends| ==> sources[n].depends[k] in TagsOf(sources))
  {
    if forall k :: 0 <= k < |sources[n].depends| ==> sources[n].depends[k] in TagsOf(sources) {
      forall d | d in reg[sources[n].tag].depends
        ensures d in reg
      {
        assert DependsOn(sources, n, n + 1, d);
        if d in sources[n].depends {
          var k :| 0 <= k < |sources[n].depends| && sources[n].depends[k] == d;
        }
      }
    }
    if forall d :: d in reg[sources[n].tag].depends ==> d in reg {
      forall k | 0 <= k < |sources[n].depends|
        ensures sources[n].depends[k] in TagsOf(sources)
      {
        assert DependsOn(sources, n, n + 1, sources[n].depends[k]);
      }
    }
  }

  /** Makes the tags that script n points at depend on it. */
  method ResolveForward(start: Registry, sources: seq<Source>, n: nat) returns (resolved: Option<Registry>)
    requires TagsDistinct(sources) && n < |sources| && Resolving(start, sources, n, 0)
    ensures resolved.Some? <==> ForwardKnown(sources[n], TagsOf(sources))
    ensures resolved.Some? ==> Resolving(resolved.value, sources, n + 1, 0)
  {
    hide Resolving, TagsOf, TagsDistinct;
    var reg := start;
    for k := 0 to |sources[n].forward|
      invariant Resolving(reg, sources, n, k)
      invariant forall m :: 0 <= m < k ==> sources[n].forward[m] in TagsOf(sources)
    {
      var fd := sources[n].forward[k];
      RegistryKeys(reg, sources, n, k);
      if fd !in reg {
        return None;
      }
      ForwardStep(reg, sources, n, k);
      reg := reg[fd := reg[fd].(depends := reg[fd].depends + [sources[n].tag])];
    }
    ScriptDone(reg, sources, n);
    resolved := Some(reg);
  }

  /** Are all dependencies of script n known? */
  method Audit(reg: Registry, sources: seq<Source>, n: nat) returns (known: bool)
    requires n < |sources| && Resolving(reg, sources, n + 1, 0)
    ensures known <==> DependsKnown(sources[n], TagsOf(sources))
  {
    AuditIsOwn(reg, sources, n);
    RegistryKeys(reg, sources, n + 1, 0);
    hide Resolving, TagsOf;
    HasTag(sources, n);
    known := Ready(reg[sources[n].tag], reg.Keys);
  }

  /** Turns the forward dependencies of a table of scripts around and rejects unknown names. */
  method ResolveAll(sources: seq<Source>) returns (loaded: Option<Registry>)
    requires TagsDistinct(sources)
    ensures loaded.Some? <==> forall i :: 0 <= i < |sources| ==> NamesKnown(sources[i], TagsOf(sources))
    ensures loaded.Some? ==> Resolved(loaded.value, sources)
  {
    var reg := Register(sources);
    NothingResolved(reg, sources);
    hide Resolving, TagsOf, TagsDistinct, DependsKnown, ForwardKnown;
    for n := 0 to |sources|
      invariant Resolving(reg, sources, n, 0)
      invariant forall i :: 0 <= i < n ==> NamesKnown(sources[i], TagsOf(sources))
    {
      var resolved := ResolveForward(reg, sources, n);
      if resolved.None? {
        return None;
      }
      reg := resolved.value;
      var known := Audit(reg, sources, n);
      if !known {
        return None;
      }
    }
    loaded := Some(reg);
  }

  lemma NothingResolved(reg: Registry, sources: seq<Source>)
    requires reg.Keys == TagsOf(sources)
    requires forall i :: 0 <= i < |sources| ==>
      sources[i].tag in reg && reg[sources[i].tag] == Script(sources[i].isUpgrader, sources[i].depends)
    ensures Resolving(reg, sources, 0, 0)
  {
  }

  /** Loads the scripts; of several scripts with one tag the last counts. */
  method LoadAll(sources: seq<Source>) returns (loaded: Option<Registry>)
    ensures loaded.Some? <==> forall s :: s in ByTag(sources) ==> NamesKnown(s, TagsOf(sources))
    ensures loaded.Some? ==> Resolved(loaded.value, ByTag(sources))
  {
    hide ByTag, Resolved, NamesKnown, TagsOf, TagsDistinct;
    var table := Collect(sources);
    ByTagIsLast(sources);
    loaded := ResolveAll(table);
    assert forall s :: s in table <==> exists i :: 0 <= i < |table| && table[i] == s;
  }

  lemma RegistryKeys(reg: Registry, sources: seq<Source>, n: nat, k: nat)
    requires n < |sources| || (n == |sources| && k == 0)
    requires n < |sources| ==> k <= |sources[n].forward|
    requires Resolving(reg, sources, n, k)
    ensures reg.Keys == TagsOf(sources)
  {
  }

  lemma HasTag(sources: seq<Source>, n: nat)
    requires n < |sources|
    ensures sources[n].tag in TagsOf(sources)
  {
  }
}
