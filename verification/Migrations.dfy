/** Upgrading a configuration from any earlier version (lib/config/migrations.go). */
module Migrations {
  import opened Wrappers
  import Sorting

  /** A configuration of which only the version is known here. */
  datatype Versioned<C> = Versioned(version: int, rest: C)

  datatype Migration<!C> = Migration(targetVersion: int, convert: Option<Versioned<C> -> Versioned<C>>)

  function ApplyOne<C>(m: Migration<C>, cfg: Versioned<C>): Versioned<C> {
    if cfg.version >= m.targetVersion then cfg else
      var converted := if m.convert.Some? then m.convert.value(cfg) else cfg;
      converted.(version := m.targetVersion)
  }

  /** The migrations applied one after the other. */
  function ApplyInOrder<C>(ms: seq<Migration<C>>, cfg: Versioned<C>): Versioned<C> {
    if ms == [] then cfg else ApplyOne(ms[|ms| - 1], ApplyInOrder(ms[..|ms| - 1], cfg))
  }

  predicate NotAfter<C>(a: Migration<C>, b: Migration<C>) {
    a.targetVersion <= b.targetVersion
  }

  ghost predicate InOrder<C(!new)>(ms: seq<Migration<C>>) {
    Sorting.Sorted(ms, NotAfter)
  }

  /** Sorts the set in place and applies it. */
  method Apply<C(!new)>(ms: seq<Migration<C>>, cfg: Versioned<C>) returns (r: Versioned<C>, sorted: seq<Migration<C>>)
    ensures multiset(sorted) == multiset(ms) && InOrder(sorted)
    ensures r == ApplyInOrder(sorted, cfg)
    ensures forall m :: m in ms ==> m.targetVersion <= r.version
  {
    sorted := Sorting.SortFunc(ms, NotAfter);
    r := cfg;
    for i := 0 to |sorted|
      invariant r == ApplyInOrder(sorted[..i], cfg)
      invariant forall k :: 0 <= k < i ==> sorted[k].targetVersion <= r.version
    {
      assert sorted[..i + 1][..i] == sorted[..i];
      assert forall k :: 0 <= k < i ==> NotAfter(sorted[k], sorted[i]);
      r := ApplyOne(sorted[i], r);
    }
    assert sorted[..|sorted|] == sorted;
    Sorting.SameElements(ms, sorted);
  }

  ghost predicate DistinctTargets<C>(ms: seq<Migration<C>>) {
    forall i, j :: 0 <= i < j < |ms| ==> ms[i].targetVersion != ms[j].targetVersion
  }

  // ---------- The order in which migrations are listed ----------

  lemma SameSetIsDistinct<C(!new)>(a: seq<Migration<C>>, b: seq<Migration<C>>)
    requires DistinctTargets(a) && multiset(a) == multiset(b)
    ensures DistinctTargets(b)
  {
    Sorting.SameElements(a, b);
    forall i, j | 0 <= i < j < |b| ensures b[i].targetVersion != b[j].targetVersion {
      assert b[i] in a && b[j] in a;
      var k :| 0 <= k < |a| && a[k] == b[i];
      var l :| 0 <= l < |a| && a[l] == b[j];
      if k == l {
        OnlyOnce(a, k);
        Sorting.TwiceMeansTwo(b, i, j);
      } else {
        assert a[if k < l then k else l].targetVersion != a[if k < l then l else k].targetVersion;
      }
    }
  }

  lemma OnlyOnce<C(!new)>(a: seq<Migration<C>>, k: nat)
    requires DistinctTargets(a) && k < |a|
    ensures multiset(a)[a[k]] == 1
  {
    Sorting.OccursOnce(a, k);
  }

  /** With distinct targets, there is one order to apply the migrations in, however they are
      listed, and so one result. */
  lemma ListingOrderDoesNotMatter<C(!new)>(
      a: seq<Migration<C>>, b: seq<Migration<C>>,
      sortedA: seq<Migration<C>>, sortedB: seq<Migration<C>>, cfg: Versioned<C>)
    requires DistinctTargets(a) && multiset(a) == multiset(b)
    requires multiset(sortedA) == multiset(a) && InOrder(sortedA)
    requires multiset(sortedB) == multiset(b) && InOrder(sortedB)
    ensures ApplyInOrder(sortedA, cfg) == ApplyInOrder(sortedB, cfg)
  {
    SameSetIsDistinct(a, sortedA);
    Sorting.SortedIsUnique(sortedA, sortedB, NotAfter);
  }

  /** Of two migrations with the same target only the one that happens to come first is applied,
      so that the order shows exactly if the two convert the configuration differently. */
  lemma SameTargetTwice<C(!new)>(m: Migration<C>, n: Migration<C>, cfg: Versioned<C>)
    requires m.targetVersion == n.targetVersion > cfg.version
    ensures ApplyInOrder([m, n], cfg) == ApplyOne(m, cfg)
    ensures ApplyInOrder([m, n], cfg) == ApplyInOrder([n, m], cfg) <==> ApplyOne(m, cfg) == ApplyOne(n, cfg)
  {
    assert [m, n][..1] == [m] && [n, m][..1] == [n];
    assert [m][..0] == [] && [n][..0] == [];
    assert ApplyInOrder([m], cfg) == ApplyOne(m, ApplyInOrder([], cfg));
    assert ApplyInOrder([n], cfg) == ApplyOne(n, ApplyInOrder([], cfg));
  }

  // ---------- The version that is reached ----------

  function Highest<C>(ms: seq<Migration<C>>, start: int): (v: int)
    ensures v >= start && forall m :: m in ms ==> m.targetVersion <= v
    ensures v == start || exists m :: m in ms && m.targetVersion == v
  {
    if ms == [] then start else
      var h := Highest(ms[..|ms| - 1], start);
      assert ms == ms[..|ms| - 1] + [ms[|ms| - 1]];
      if h < ms[|ms| - 1].targetVersion then ms[|ms| - 1].targetVersion else h
  }

  /** The highest target is reached, unless the start was beyond it. This does not depend on the
      converters leaving the version alone: the migration sets it after them. */
  lemma {:induction false} VersionReached<C(!new)>(ms: seq<Migration<C>>, cfg: Versioned<C>)
    ensures ApplyInOrder(ms, cfg).version == Highest(ms, cfg.version)
  {
    if ms != [] {
      VersionReached(ms[..|ms| - 1], cfg);
    }
  }

  lemma {:induction false} NothingToDo<C(!new)>(ms: seq<Migration<C>>, cfg: Versioned<C>)
    requires forall m :: m in ms ==> m.targetVersion <= cfg.version
    ensures ApplyInOrder(ms, cfg) == cfg
  {
    if ms != [] {
      assert ms[|ms| - 1] in ms;
      NothingToDo(ms[..|ms| - 1], cfg);
    }
  }

  /** Applying the set again changes nothing. */
  lemma SecondTimeChangesNothing<C(!new)>(ms: seq<Migration<C>>, cfg: Versioned<C>)
    ensures ApplyInOrder(ms, ApplyInOrder(ms, cfg)) == ApplyInOrder(ms, cfg)
  {
    VersionReached(ms, cfg);
    NothingToDo(ms, ApplyInOrder(ms, cfg));
  }

  // ---------- Upgrading in steps ----------

  lemma {:induction false} OneAfterTheOther<C(!new)>(a: seq<Migration<C>>, b: seq<Migration<C>>, cfg: Versioned<C>)
    ensures ApplyInOrder(a + b, cfg) == ApplyInOrder(b, ApplyInOrder(a, cfg))
  {
    if b == [] {
      assert a + b == a;
    } else {
      assert (a + b)[..|a + b| - 1] == a + b[..|b| - 1];
      OneAfterTheOther(a, b[..|b| - 1], cfg);
    }
  }

  /** Those of the migrations that a release up to the given version had. */
  ghost function UpTo<C>(ms: seq<Migration<C>>, version: int): seq<Migration<C>> {
    if ms == [] then [] else
      UpTo(ms[..|ms| - 1], version) +
      if ms[|ms| - 1].targetVersion <= version then [ms[|ms| - 1]] else []
  }

  lemma {:induction false} UpToIsPrefix<C(!new)>(ms: seq<Migration<C>>, version: int)
    requires InOrder(ms)
    ensures UpTo(ms, version) <= ms
    ensures |UpTo(ms, version)| < |ms| ==> ms[|UpTo(ms, version)|].targetVersion > version
  {
    if ms != [] {
      var init := ms[..|ms| - 1];
      UpToIsPrefix(init, version);
      var n := |UpTo(init, version)|;
      assert n < |init| ==> NotAfter(ms[n], ms[|ms| - 1]);
    }
  }

  /** Upgrading by way of an older release, which has the migrations up to some version only,
      leads to the same configuration as upgrading in one go. */
  lemma InTwoStepsOrInOne<C(!new)>(ms: seq<Migration<C>>, version: int, cfg: Versioned<C>)
    requires InOrder(ms)
    ensures ApplyInOrder(ms, ApplyInOrder(UpTo(ms, version), cfg)) == ApplyInOrder(ms, cfg)
  {
    UpToIsPrefix(ms, version);
    var low := UpTo(ms, version);
    var high := ms[|low|..];
    assert ms == low + high;
    OneAfterTheOther(low, high, cfg);
    OneAfterTheOther(low, high, ApplyInOrder(low, cfg));
    SecondTimeChangesNothing(low, cfg);
  }

  // ---------- Which converters run ----------

  /** A migration runs its converter exactly if the configuration is older than its target, and then sets
      the version. */
  lemma OneMigration<C(!new)>(m: Migration<C>, cfg: Versioned<C>)
    ensures cfg.version >= m.targetVersion ==> ApplyOne(m, cfg) == cfg
    ensures cfg.version < m.targetVersion ==>
              ApplyOne(m, cfg) ==
              Versioned(m.targetVersion, if m.convert.Some? then m.convert.value(cfg).rest else cfg.rest)
  {
  }

  /** The migration whose only work is to write down that it has run. */
  function Marking(target: int): Migration<seq<int>> {
    Migration(target, Some((cfg: Versioned<seq<int>>) => Versioned(cfg.version, cfg.rest + [target])))
  }

  ghost function Above(targets: seq<int>, version: int): seq<int> {
    if targets == [] then [] else
      Above(targets[..|targets| - 1], version) +
      if targets[|targets| - 1] > version then [targets[|targets| - 1]] else []
  }

  function Markings(targets: seq<int>): seq<Migration<seq<int>>> {
    if targets == [] then [] else Markings(targets[..|targets| - 1]) + [Marking(targets[|targets| - 1])]
  }

  /** So of migrations with increasing targets those above the version run once each, in this order, and no
      others. */
  lemma {:induction false} EachRunsOnce(targets: seq<int>, cfg: Versioned<seq<int>>)
    requires forall i, j :: 0 <= i < j < |targets| ==> targets[i] < targets[j]
    ensures var r := ApplyInOrder(Markings(targets), cfg);
            && r.rest == cfg.rest + Above(targets, cfg.version)
            && r.version ==
               if targets != [] && targets[|targets| - 1] > cfg.version then targets[|targets| - 1] else cfg.version
  {
    if targets == [] {
      assert cfg.rest + [] == cfg.rest;
    } else {
      var n := |targets| - 1;
      EachRunsOnce(targets[..n], cfg);
      var ms := Markings(targets);
      assert ms[..|ms| - 1] == Markings(targets[..n]) && ms[|ms| - 1] == Marking(targets[n]);
      var before := ApplyInOrder(Markings(targets[..n]), cfg);
      assert ApplyInOrder(ms, cfg) == ApplyOne(Marking(targets[n]), before);
      OneMigration(Marking(targets[n]), before);
      assert before.version < targets[n] <==> cfg.version < targets[n];
      assert cfg.rest + Above(targets[..n], cfg.version) + [targets[n]] ==
             cfg.rest + (Above(targets[..n], cfg.version) + [targets[n]]);
      assert cfg.rest + Above(targets[..n], cfg.version) + [] == cfg.rest + Above(targets[..n], cfg.version);
    }
  }
}
