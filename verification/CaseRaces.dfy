/** Calls that overlap on a file system that tells names apart by case (lib/fs/casefs.go). A lookup
    lists a directory and adds the listing to the cache under a lock of its own; changing the file
    system and dropping the cache afterwards are two steps, between and around which others may come. */
module CaseRaces {
  import opened Wrappers
  import opened CaseFs

  /** What a listing of a directory is kept as. */
  ghost function NodeOf(tree: Tree, u: Unicode, p: Path, expires: int): (node: CaseNode)
    ensures IsFresh(node, tree, u, p)
  {
    match DirNames(tree, p)
    case Err(e) => CaseNode(expires, map[], {}, Some(e))
    case Ok(names) => CaseNode(expires, LowerToReal(names, u), (set n | n in names), None)
  }

  /** The lock is held between a listing and its addition to the cache. */
  datatype State = State(tree: Tree, cache: map<Path, CaseNode>, holder: Option<(Path, CaseNode)>)

  /** A directory is listed when it is not in the cache, or when its node has expired; the clock is read
      again for the new node. Adding may evict any nodes. The cache is dropped after every change,
      and at other times, too. */
  datatype Step =
    | List(p: Path, now: int, later: int)
    | Add(evicted: set<Path>)
    | Change(tree: Tree)
    | Purge

  ghost predicate Enabled(s: State, step: Step) {
    match step
    case List(p, now, _) => s.holder.None? && (p in s.cache ==> s.cache[p].expires < now)
    case Add(_) => s.holder.Some?
    case Change(_) => true
    case Purge => true
  }

  ghost function Next(u: Unicode, s: State, step: Step): State
    requires Enabled(s, step)
  {
    match step
    case List(p, _, later) => s.(holder := Some((p, NodeOf(s.tree, u, p, later + CASE_CACHE_TIMEOUT))))
    case Add(evicted) => s.(cache := s.cache[s.holder.value.0 := s.holder.value.1] - evicted, holder := None)
    case Change(tree) => s.(tree := tree)
    case Purge => s.(cache := map[])
  }

  ghost function Init(tree: Tree): State {
    State(tree, map[], None)
  }

  /** The state after the steps, if each of them was possible. */
  ghost function After(u: Unicode, tree: Tree, steps: seq<Step>): Option<State> {
    if steps == [] then Some(Init(tree)) else
      match After(u, tree, steps[..|steps| - 1])
      case None => None
      case Some(s) => if Enabled(s, steps[|steps| - 1]) then Some(Next(u, s, steps[|steps| - 1])) else None
  }

  lemma AfterLast(u: Unicode, tree: Tree, steps: seq<Step>)
    requires steps != [] && After(u, tree, steps).Some?
    ensures var init, step := steps[..|steps| - 1], steps[|steps| - 1];
            && After(u, tree, init).Some? && Enabled(After(u, tree, init).value, step)
            && After(u, tree, steps).value == Next(u, After(u, tree, init).value, step)
  {
    hide Next;
    hide Enabled;
  }

  // ---------- Where cached nodes come from ----------

  /** The listing that waits to be added. */
  ghost function Held(steps: seq<Step>): (i: Option<nat>)
    ensures i.Some? ==> i.value < |steps| && steps[i.value].List?
  {
    if steps == [] then None else
      match steps[|steps| - 1]
      case List(_, _, _) => Some(|steps| - 1)
      case Add(_) => None
      case _ => Held(steps[..|steps| - 1])
  }

  /** The listing that the cached node of a directory comes from, read off the steps alone. */
  ghost function Origin(steps: seq<Step>, p: Path): (i: Option<nat>)
    ensures i.Some? ==> i.value < |steps| && steps[i.value].List? && steps[i.value].p == p
  {
    if steps == [] then None else
      var init := steps[..|steps| - 1];
      match steps[|steps| - 1]
      case Purge => None
      case Add(evicted) => if p in evicted then None else if IsHeldFor(init, p) then Held(init) else Origin(init, p)
      case _ => Origin(init, p)
  }

  ghost predicate IsHeldFor(steps: seq<Step>, p: Path) {
    Held(steps).Some? && steps[Held(steps).value].p == p
  }

  /** The tree after the first i steps. */
  ghost function TreeAt(tree: Tree, steps: seq<Step>, i: nat): Tree
    requires i <= |steps|
  {
    if i == 0 then tree else match steps[i - 1]
                             case Change(tree') => tree'
                             case _ => TreeAt(tree, steps, i - 1)
  }

  /** What is listed at step i. */
  ghost function Listed(u: Unicode, tree: Tree, steps: seq<Step>, i: nat): CaseNode
    requires i < |steps| && steps[i].List?
  {
    NodeOf(TreeAt(tree, steps, i), u, steps[i].p, steps[i].later + CASE_CACHE_TIMEOUT)
  }

  lemma {:induction false} TreeAtPrefix(tree: Tree, steps: seq<Step>, n: nat, i: nat)
    requires i <= n <= |steps|
    ensures TreeAt(tree, steps[..n], i) == TreeAt(tree, steps, i)
  {
    if i > 0 {
      TreeAtPrefix(tree, steps, n, i - 1);
    }
  }

  /** The tree, the node that waits and the nodes in the cache are what the steps say. */
  ghost predicate Explained(u: Unicode, tree: Tree, steps: seq<Step>, s: State, p: Path) {
    && s.tree == TreeAt(tree, steps, |steps|)
    && (match Held(steps)
        case None => s.holder.None?
        case Some(i) => s.holder == Some((steps[i].p, Listed(u, tree, steps, i))))
    && (match Origin(steps, p)
        case None => p !in s.cache
        case Some(i) => p in s.cache && s.cache[p] == Listed(u, tree, steps, i))
  }

  lemma NoSteps(u: Unicode, tree: Tree, p: Path)
    ensures Explained(u, tree, [], Init(tree), p)
  {
  }

  lemma OneMoreStep(steps: seq<Step>, p: Path)
    requires steps != []
    ensures var init, step := steps[..|steps| - 1], steps[|steps| - 1];
            && Held(steps) == (match step
                               case List(_, _, _) => Some(|init|)
                               case Add(_) => None
                               case _ => Held(init))
            && Origin(steps, p) == (match step
                                    case Purge => None
                                    case Add(evicted) => if p in evicted then None
                                                         else if IsHeldFor(init, p) then Held(init) else Origin(init, p)
                                    case _ => Origin(init, p))
  {
    hide IsHeldFor;
  }

  lemma ListedBefore(u: Unicode, tree: Tree, steps: seq<Step>, n: nat, i: nat)
    requires i < n <= |steps| && steps[i].List?
    ensures Listed(u, tree, steps[..n], i) == Listed(u, tree, steps, i)
  {
    TreeAtPrefix(tree, steps, n, i);
    hide TreeAt;
  }

  lemma ExplainedStep(u: Unicode, tree: Tree, steps: seq<Step>, s: State, p: Path)
    requires steps != [] && Explained(u, tree, steps[..|steps| - 1], s, p) && Enabled(s, steps[|steps| - 1])
    ensures Explained(u, tree, steps, Next(u, s, steps[|steps| - 1]), p)
  {
    var n := |steps| - 1;
    OneMoreStep(steps, p);
    TreeAtPrefix(tree, steps, n, n);
    if Held(steps[..n]).Some? {
      ListedBefore(u, tree, steps, n, Held(steps[..n]).value);
    }
    if Origin(steps[..n], p).Some? {
      ListedBefore(u, tree, steps, n, Origin(steps[..n], p).value);
    }
    hide Held;
    hide Origin;
    hide NodeOf;
  }

  lemma {:induction false} RunIsExplained(u: Unicode, tree: Tree, steps: seq<Step>, p: Path)
    requires After(u, tree, steps).Some?
    ensures Explained(u, tree, steps, After(u, tree, steps).value, p)
  {
    hide *;
    if steps == [] {
      NothingYet(u, tree);
      NoSteps(u, tree, p);
    } else {
      AfterLast(u, tree, steps);
      RunIsExplained(u, tree, steps[..|steps| - 1], p);
      ExplainedStep(u, tree, steps, After(u, tree, steps[..|steps| - 1]).value, p);
    }
  }

  lemma NothingYet(u: Unicode, tree: Tree)
    ensures After(u, tree, []) == Some(Init(tree))
  {
  }

  // ---------- When the cache is right ----------

  ghost predicate AllFresh(u: Unicode, s: State) {
    forall p :: p in s.cache ==> IsFresh(s.cache[p], s.tree, u, p)
  }

  /** A listing of the directory in one tree serves as well for the other. */
  ghost predicate LooksTheSame(u: Unicode, before: Tree, after: Tree, p: Path) {
    IsFresh(NodeOf(before, u, p, 0), after, u, p)
  }

  lemma ExpiryDoesNotMatter(u: Unicode, before: Tree, after: Tree, p: Path, expires: int)
    ensures IsFresh(NodeOf(before, u, p, expires), after, u, p) <==> LooksTheSame(u, before, after, p)
  {
    hide LowerToReal;
    hide DirNames;
  }

  ghost predicate OriginsLookTheSame(u: Unicode, tree: Tree, steps: seq<Step>) {
    forall p :: OriginLooksTheSame(u, tree, steps, p)
  }

  ghost predicate OriginLooksTheSame(u: Unicode, tree: Tree, steps: seq<Step>, p: Path) {
    Origin(steps, p).Some? ==>
      LooksTheSame(u, TreeAt(tree, steps, Origin(steps, p).value), TreeAt(tree, steps, |steps|), p)
  }

  lemma OriginDecides(u: Unicode, tree: Tree, steps: seq<Step>, p: Path)
    requires After(u, tree, steps).Some?
    ensures var s := After(u, tree, steps).value;
            (p in s.cache ==> IsFresh(s.cache[p], s.tree, u, p)) <==> OriginLooksTheSame(u, tree, steps, p)
  {
    RunIsExplained(u, tree, steps, p);
    hide After;
    hide Origin;
    hide Held;
    hide TreeAt;
    hide NodeOf;
    hide IsFresh;
    hide LooksTheSame;
    if Origin(steps, p).Some? {
      var i := Origin(steps, p).value;
      var expires := steps[i].later + CASE_CACHE_TIMEOUT;
      ExpiryDoesNotMatter(u, TreeAt(tree, steps, i), TreeAt(tree, steps, |steps|), p, expires);
    }
  }

  /** In every run a cached node is right exactly if its directory looks as it did when it was listed. */
  lemma FreshMeansUnchanged(u: Unicode, tree: Tree, steps: seq<Step>)
    requires After(u, tree, steps).Some?
    ensures AllFresh(u, After(u, tree, steps).value) <==> OriginsLookTheSame(u, tree, steps)
  {
    forall p
      ensures (p in After(u, tree, steps).value.cache ==>
                 IsFresh(After(u, tree, steps).value.cache[p], After(u, tree, steps).value.tree, u, p)) <==>
              OriginLooksTheSame(u, tree, steps, p)
    {
      OriginDecides(u, tree, steps, p);
    }
    hide After;
    hide OriginLooksTheSame;
    hide IsFresh;
  }

  // ---------- Overtaken listings ----------

  /** The cache has been dropped since the last change. */
  ghost predicate IsPurged(steps: seq<Step>) {
    forall j :: 0 <= j < |steps| && steps[j].Change? ==> PurgedAfter(steps, j)
  }

  ghost predicate PurgedAfter(steps: seq<Step>, j: nat) {
    exists k :: j < k < |steps| && steps[k].Purge?
  }

  ghost predicate IsLastChange(steps: seq<Step>, j: nat) {
    j < |steps| && steps[j].Change? && forall k :: j < k < |steps| ==> !steps[k].Change?
  }

  ghost predicate IsAddOf(steps: seq<Step>, i: nat, m: nat) {
    i < m < |steps| && steps[m].Add? && Held(steps[..m]) == Some(i)
  }

  ghost predicate PurgedBetween(steps: seq<Step>, j: nat, m: nat)
    requires m <= |steps|
  {
    exists k :: j < k < m && steps[k].Purge?
  }

  /** The cached node of the directory was listed before the last change and added after the cache was
      dropped for it. */
  ghost predicate Overtaken(steps: seq<Step>, p: Path) {
    Origin(steps, p).Some? &&
    exists j, m :: IsLastChange(steps, j) && IsAddOf(steps, Origin(steps, p).value, m) &&
                   Origin(steps, p).value < j && PurgedBetween(steps, j, m)
  }

  /** A cached node was added after it was listed, and no purge has come since. */
  lemma {:induction false} OriginWasAdded(steps: seq<Step>, p: Path) returns (m: nat)
    requires Origin(steps, p).Some?
    ensures IsAddOf(steps, Origin(steps, p).value, m)
    ensures forall k :: m < k < |steps| ==> !steps[k].Purge?
  {
    var n := |steps| - 1;
    if steps[n].Add? && IsHeldFor(steps[..n], p) {
      m := n;
    } else {
      m := OriginWasAdded(steps[..n], p);
      assert steps[..n][..m] == steps[..m];
    }
  }

  lemma {:induction false} LastChange(steps: seq<Step>, i: nat) returns (j: nat)
    requires i < |steps| && steps[i].Change?
    ensures i <= j && IsLastChange(steps, j)
    decreases |steps| - i
  {
    if k :| i < k < |steps| && steps[k].Change? {
      j := LastChange(steps, k);
    } else {
      j := i;
    }
  }

  lemma {:induction false} NoChangeSince(tree: Tree, steps: seq<Step>, i: nat, n: nat)
    requires i <= n <= |steps| && forall k :: i <= k < n ==> !steps[k].Change?
    ensures TreeAt(tree, steps, n) == TreeAt(tree, steps, i)
  {
    if i < n {
      NoChangeSince(tree, steps, i, n - 1);
    }
  }

  /** Where the cache was dropped after the last change, a node in it comes from the tree as it is now, or
      it was overtaken. */
  lemma CurrentOrOvertaken(tree: Tree, steps: seq<Step>, p: Path)
    requires IsPurged(steps) && Origin(steps, p).Some?
    ensures Overtaken(steps, p) || TreeAt(tree, steps, Origin(steps, p).value) == TreeAt(tree, steps, |steps|)
  {
    var i := Origin(steps, p).value;
    var m := OriginWasAdded(steps, p);
    if c :| i <= c < |steps| && steps[c].Change? {
      var j := LastChange(steps, c);
      assert PurgedAfter(steps, j);
      var k :| j < k < |steps| && steps[k].Purge?;
      assert k != m && k < m;
      assert PurgedBetween(steps, j, m);
      assert steps[..m][i] == steps[i] && i != j;
    } else {
      NoChangeSince(tree, steps, i, |steps|);
    }
  }

  /** Where the cache was dropped after the last change, every node in it is right exactly if none was
      overtaken, or at least none whose directory looks different now. */
  lemma FreshUnlessOvertaken(u: Unicode, tree: Tree, steps: seq<Step>)
    requires After(u, tree, steps).Some? && IsPurged(steps)
    ensures AllFresh(u, After(u, tree, steps).value) <==>
            forall p :: Overtaken(steps, p) ==> OriginLooksTheSame(u, tree, steps, p)
  {
    FreshMeansUnchanged(u, tree, steps);
    forall p | !Overtaken(steps, p) ensures OriginLooksTheSame(u, tree, steps, p) {
      if Origin(steps, p).Some? {
        CurrentOrOvertaken(tree, steps, p);
      }
    }
    hide AllFresh;
    hide Overtaken;
    hide OriginLooksTheSame;
    hide After;
  }

  /** No change comes between a listing and its addition. */
  ghost predicate Uninterrupted(steps: seq<Step>) {
    forall i: nat, m: nat, j :: IsAddOf(steps, i, m) && i < j < m ==> !steps[j].Change?
  }

  /** So if no lookup is interrupted by a change, and every change is followed by a purge, the cache is
      right. */
  lemma UninterruptedIsFresh(u: Unicode, tree: Tree, steps: seq<Step>)
    requires After(u, tree, steps).Some? && IsPurged(steps) && Uninterrupted(steps)
    ensures AllFresh(u, After(u, tree, steps).value)
  {
    FreshUnlessOvertaken(u, tree, steps);
    forall p ensures !Overtaken(steps, p) {
    }
    hide AllFresh;
    hide After;
  }

  // ---------- What an overtaken listing does ----------

  ghost function ResolveIn(node: CaseNode, u: Unicode, dir: Path, comp: Name): Result<Path, Error> {
    if node.err.Some? then Err(node.err.value)
    else if comp in node.children then Ok(dir + [comp])
    else if u.fold(comp) in node.lowerToReal then Ok(dir + [node.lowerToReal[u.fold(comp)]])
    else Err(NotExist)
  }

  /** What a lookup finds while nothing else happens and no node expires. */
  ghost function CachedWalk(s: State, u: Unicode, p: Path): Result<Path, Error> {
    if p == [] then Ok([]) else
      match CachedWalk(s, u, p[..|p| - 1])
      case Err(e) => Err(e)
      case Ok(dir) =>
        ResolveIn(if dir in s.cache then s.cache[dir] else NodeOf(s.tree, u, dir, 0), u, dir, p[|p| - 1])
  }

  /** What Lstat and Stat then report: the cache is dropped if the lookup finds nothing. */
  ghost function StatResult(s: State, u: Unicode, ignoresCase: bool, p: Path): Result<(), Error> {
    match OsWalk(s.tree, u, ignoresCase, p)
    case Err(e) => Err(e)
    case Ok(_) =>
      match CachedWalk(s, u, p)
      case Err(e) => if e == NotExist then ExistingResult(s.tree, u, p) else Err(e)
      case Ok(r) => if SameSpelling(u, r, p) then Ok(()) else Err(CaseConflict(p, r))
  }

  lemma FreshResolves(node: CaseNode, tree: Tree, u: Unicode, dir: Path, comp: Name)
    requires IsFresh(node, tree, u, dir)
    ensures ResolveIn(node, u, dir, comp) == Resolve(tree, u, dir, comp)
  {
    hide LowerToReal;
  }

  /** A cache that is right gives the real names. */
  lemma {:induction false} FreshWalkIsReal(s: State, u: Unicode, p: Path)
    requires AllFresh(u, s)
    ensures CachedWalk(s, u, p) == RealWalk(s.tree, u, p)
  {
    if p != [] {
      var n := |p| - 1;
      FreshWalkIsReal(s, u, p[..n]);
      if RealWalk(s.tree, u, p[..n]).Ok? {
        var dir := RealWalk(s.tree, u, p[..n]).value;
        FreshResolves(if dir in s.cache then s.cache[dir] else NodeOf(s.tree, u, dir, 0), s.tree, u, dir, p[n]);
      }
      hide ResolveIn;
      hide Resolve;
      hide NodeOf;
      hide IsFresh;
    }
  }

  /** With it, entries are found exactly under their real names. */
  lemma FreshStatIsRight(s: State, u: Unicode, ignoresCase: bool, p: Path)
    requires Sane(u) && GoodTree(s.tree, u, ignoresCase) && AllFresh(u, s)
    ensures var walk, stat := OsWalk(s.tree, u, ignoresCase, p), StatResult(s, u, ignoresCase, p);
            if walk.Err? then stat == Err(walk.error)
            else if |walk.value| == |p| && forall i :: 0 <= i < |p| ==> u.nfc(walk.value[i]) == u.nfc(p[i])
            then stat == Ok(()) else stat == Err(CaseConflict(p, walk.value))
  {
    if OsWalk(s.tree, u, ignoresCase, p).Ok? {
      OsReachesTheRealName(s.tree, u, ignoresCase, p);
      FreshWalkIsReal(s, u, p);
    }
  }

  /** And even with a cache that is not right: what it does not list is looked up again without it. Other
      errors are believed. */
  lemma MissingIsLookedUpAgain(s: State, u: Unicode, ignoresCase: bool, p: Path)
    requires Sane(u) && GoodTree(s.tree, u, ignoresCase) && CachedWalk(s, u, p).Err?
    ensures var walk, stat := OsWalk(s.tree, u, ignoresCase, p), StatResult(s, u, ignoresCase, p);
            if walk.Err? then stat == Err(walk.error)
            else if CachedWalk(s, u, p).error != NotExist then stat == Err(CachedWalk(s, u, p).error)
            else if |walk.value| == |p| && forall i :: 0 <= i < |p| ==> u.nfc(walk.value[i]) == u.nfc(p[i])
            then stat == Ok(()) else stat == Err(CaseConflict(p, walk.value))
  {
    hide CachedWalk;
    if OsWalk(s.tree, u, ignoresCase, p).Ok? {
      OsReachesTheRealName(s.tree, u, ignoresCase, p);
    }
  }

  /** The root has one entry, a file. */
  function OneEntry(n: Name): Tree {
    map[[] := [n]]
  }

  /** The root is listed while its entry has one name; then it is renamed and the cache is dropped; then
      the listing is added. */
  function OvertakenByRename(b: Name, now: int, later: int): seq<Step> {
    [List([], now, later), Change(OneEntry(b)), Purge, Add({})]
  }

  lemma OvertakenRun(u: Unicode, a: Name, b: Name, now: int, later: int)
    ensures var steps := OvertakenByRename(b, now, later);
            After(u, OneEntry(a), steps) ==
               Some(State(OneEntry(b), map[[] := NodeOf(OneEntry(a), u, [], later + CASE_CACHE_TIMEOUT)], None))
  {
    var steps := OvertakenByRename(b, now, later);
    var tree, node := OneEntry(a), NodeOf(OneEntry(a), u, [], later + CASE_CACHE_TIMEOUT);
    hide NodeOf;
    assert steps[..3][..2] == steps[..2] && steps[..2][..1] == steps[..1] && steps[..1][..0] == [];
    assert After(u, tree, steps[..1]) == Some(State(tree, map[], Some(([], node))));
    assert After(u, tree, steps[..2]) == Some(State(OneEntry(b), map[], Some(([], node))));
    assert After(u, tree, steps[..3]) == Some(State(OneEntry(b), map[], Some(([], node))));
    var no: map<Path, CaseNode>, none: set<Path> := map[], {};
    assert no[[] := node] - none == map[[] := node];
  }

  lemma RenameOvertakes(b: Name, now: int, later: int)
    ensures IsPurged(OvertakenByRename(b, now, later)) && Overtaken(OvertakenByRename(b, now, later), [])
  {
    var steps := OvertakenByRename(b, now, later);
    assert steps[..3][..2] == steps[..2] && steps[..2][..1] == steps[..1];
    assert Held(steps[..1]) == Some(0) && Held(steps[..2]) == Some(0) && Held(steps[..3]) == Some(0);
    assert Origin(steps, []) == Some(0);
    assert steps[2].Purge? && PurgedBetween(steps, 1, 3) && PurgedAfter(steps, 1);
    assert IsLastChange(steps, 1) && IsAddOf(steps, 0, 3);
  }

  lemma OneEntryIsScanned(n: Name, u: Unicode)
    requires Sane(u) && n != []
    ensures LowerToReal([n], u) == map[u.fold(n) := n]
  {
    assert [n][..0] == [];
    assert Scan([n][..0], u) == (map[], []);
    assert u.fold(n) != [];
  }

  lemma OneEntryIsReached(n: Name, u: Unicode, ignoresCase: bool, comp: Name)
    requires n != []
    ensures GoodTree(OneEntry(n), u, ignoresCase)
    ensures OsWalk(OneEntry(n), u, ignoresCase, [comp]) ==
            if Matches(u, ignoresCase, comp, n) then Ok([n]) else Err(NotExist)
  {
    assert [comp][..0] == [] && [] + [n] == [n];
    assert FindMatch([n], u, ignoresCase, comp) == if Matches(u, ignoresCase, comp, n) then Some(n) else None by {
      assert [n][1..] == [];
    }
  }

  /** A correct spelling is then refused, and on a file system that ignores case a wrong one accepted. */
  lemma OvertakenLookupMisleads(u: Unicode, ignoresCase: bool, a: Name, b: Name, now: int, later: int)
    requires Sane(u) && a != [] && b != [] && u.fold(a) == u.fold(b) && u.nfc(a) != u.nfc(b)
    ensures After(u, OneEntry(a), OvertakenByRename(b, now, later)).Some?
    ensures IsPurged(OvertakenByRename(b, now, later)) && Overtaken(OvertakenByRename(b, now, later), [])
    ensures var s := After(u, OneEntry(a), OvertakenByRename(b, now, later)).value;
            && GoodTree(s.tree, u, ignoresCase) && !AllFresh(u, s)
            && OsWalk(s.tree, u, ignoresCase, [b]) == Ok([b])
            && StatResult(s, u, ignoresCase, [b]) == Err(CaseConflict([b], [a]))
            && (ignoresCase ==>
                  OsWalk(s.tree, u, ignoresCase, [a]) == Ok([b]) && StatResult(s, u, ignoresCase, [a]) == Ok(()))
  {
    OvertakenRun(u, a, b, now, later);
    RenameOvertakes(b, now, later);
    hide Overtaken;
    hide IsPurged;
    OneEntryIsReached(b, u, ignoresCase, a);
    OneEntryIsReached(b, u, ignoresCase, b);
    hide After;
    hide OsWalk;
    hide GoodTree;
    var s := After(u, OneEntry(a), OvertakenByRename(b, now, later)).value;
    StaleNodeMisleads(s, u, a, b, later + CASE_CACHE_TIMEOUT);
    hide CachedWalk;
    hide AllFresh;
    hide NodeOf;
  }

  lemma StaleNodeMisleads(s: State, u: Unicode, a: Name, b: Name, expires: int)
    requires Sane(u) && a != [] && u.fold(a) == u.fold(b) && u.nfc(a) != u.nfc(b)
    requires s == State(OneEntry(b), map[[] := NodeOf(OneEntry(a), u, [], expires)], None)
    ensures CachedWalk(s, u, [a]) == Ok([a]) && CachedWalk(s, u, [b]) == Ok([a]) && !AllFresh(u, s)
  {
    OneEntryIsScanned(a, u);
    hide LowerToReal;
    var node := s.cache[[]];
    assert node == CaseNode(expires, map[u.fold(a) := a], {a}, None);
    assert [] + [a] == [a] && [a][..0] == [] && [b][..0] == [];
    assert ResolveIn(node, u, [], a) == Ok([a]) && ResolveIn(node, u, [], b) == Ok([a]);
    assert b in OneEntry(b)[[]] && !IsFresh(node, s.tree, u, []);
  }

  /** Only a purge, an eviction or a listing after it has expired takes a node out of the cache. */
  lemma {:induction false} NodeStays(u: Unicode, tree: Tree, steps: seq<Step>, more: seq<Step>, p: Path)
    requires After(u, tree, steps).Some? && After(u, tree, steps + more).Some?
    requires p in After(u, tree, steps).value.cache
    requires var h := After(u, tree, steps).value.holder; h.Some? ==> h.value.0 != p
    requires forall e :: e in more ==> !e.Purge? && (e.Add? ==> p !in e.evicted)
    requires forall e :: e in more && e.List? && e.p == p ==> e.now <= After(u, tree, steps).value.cache[p].expires
    ensures var s, t := After(u, tree, steps).value, After(u, tree, steps + more).value;
            p in t.cache && t.cache[p] == s.cache[p] && (t.holder.Some? ==> t.holder.value.0 != p)
  {
    if more == [] {
      assert steps + more == steps;
    } else {
      var all := steps + more;
      assert all[..|all| - 1] == steps + more[..|more| - 1] && all[|all| - 1] == more[|more| - 1];
      assert more[|more| - 1] in more;
      AfterLast(u, tree, all);
      NodeStays(u, tree, steps, more[..|more| - 1], p);
      hide After;
      hide NodeOf;
    }
  }
}
