/** A file system on which names that differ in case only are told apart although the
    underlying one may not do so (lib/fs/casefs.go). The real spelling of a path is looked up
    directory by directory in a cache of listings. */
module CaseFs {
  import opened Wrappers
  import opened Folding

  // A component of a path, and a path relative to the root as the list of its components.
  type Name = Bytes
  type Path = seq<Name>

  datatype Error = NotExist | NotADirectory | InvalidName | CaseConflict(given: Path, realName: Path) | Underlying

  /** Folding to lower case, and normalisation to NFC. */
  datatype Unicode = Unicode(fold: Name -> Name, nfc: Name -> Name)

  ghost predicate Sane(u: Unicode) {
    && (forall n :: u.fold(u.fold(n)) == u.fold(n))
    && (forall n :: u.fold(n) == [] ==> n == [])
  }

  /** The folding of names is of this kind: for ASCII names by what they are, and for others provided the
      Unicode path returns what folds to itself and is not empty. */
  lemma FoldingIsSane(toLowerUnicode: Name -> Name, nfc: Name -> Name)
    requires forall n :: !IsAscii(n) ==> Fold(toLowerUnicode(n), toLowerUnicode) == toLowerUnicode(n) != []
    ensures Sane(Unicode(n => Fold(n, toLowerUnicode), nfc))
  {
    var u := Unicode(n => Fold(n, toLowerUnicode), nfc);
    FoldIsIdempotent(toLowerUnicode);
    forall n ensures u.fold(u.fold(n)) == u.fold(n) && (u.fold(n) == [] ==> n == []) {
      assert u.fold(n) == Fold(n, toLowerUnicode);
      assert u.fold(u.fold(n)) == Fold(Fold(n, toLowerUnicode), toLowerUnicode);
      assert IsAscii(n) ==> |LowerASCII(n)| == |n|;
    }
  }

  // ---------- The underlying file system ----------

  /** The names in each directory, in the order in which they are listed. */
  type Tree = map<Path, seq<Name>>

  predicate IsEntry(tree: Tree, p: Path) {
    p == [] || (p[..|p| - 1] in tree && p[|p| - 1] in tree[p[..|p| - 1]])
  }

  /** The root is a directory, and every directory is an entry of its parent. */
  ghost predicate WellFormed(tree: Tree) {
    && [] in tree
    && (forall p :: p in tree ==> IsEntry(tree, p))
    && (forall p, n :: p in tree && n in tree[p] ==> n != [])
  }

  ghost predicate FoldUnique(tree: Tree, u: Unicode) {
    forall p, m, n :: p in tree && m in tree[p] && n in tree[p] && u.fold(m) == u.fold(n) ==> m == n
  }

  /** On a file system that ignores case, no directory has two names that fold equal. */
  ghost predicate GoodTree(tree: Tree, u: Unicode, ignoresCase: bool) {
    WellFormed(tree) && (ignoresCase ==> FoldUnique(tree, u))
  }

  function DirNames(tree: Tree, p: Path): Result<seq<Name>, Error> {
    if p in tree then Ok(tree[p])
    else if IsEntry(tree, p) then Err(NotADirectory)
    else Err(NotExist)
  }

  predicate Matches(u: Unicode, ignoresCase: bool, comp: Name, n: Name) {
    if ignoresCase then u.fold(n) == u.fold(comp) else n == comp
  }

  function FindMatch(names: seq<Name>, u: Unicode, ignoresCase: bool, comp: Name): (r: Option<Name>)
    ensures r.Some? ==> r.value in names && Matches(u, ignoresCase, comp, r.value)
    ensures r.None? ==> forall n :: n in names ==> !Matches(u, ignoresCase, comp, n)
  {
    if names == [] then None
    else if Matches(u, ignoresCase, comp, names[0]) then Some(names[0])
    else FindMatch(names[1..], u, ignoresCase, comp)
  }

  /** The entry that the operating system reaches under a path. */
  function OsWalk(tree: Tree, u: Unicode, ignoresCase: bool, p: Path): (r: Result<Path, Error>)
    ensures r.Err? ==> r.error == NotExist || r.error == NotADirectory
  {
    if p == [] then Ok([]) else
      match OsWalk(tree, u, ignoresCase, p[..|p| - 1])
      case Err(e) => Err(e)
      case Ok(dir) =>
        match DirNames(tree, dir)
        case Err(e) => Err(e)
        case Ok(names) =>
          match FindMatch(names, u, ignoresCase, p[|p| - 1])
          case None => Err(NotExist)
          case Some(n) => Ok(dir + [n])
  }

  // ---------- The real name, without a cache ----------

  /** The map from folded to real names as the loop over the listing builds it, and the name
      that was stored last. */
  ghost function Scan(names: seq<Name>, u: Unicode): (map<Name, Name>, Name) {
    if names == [] then (map[], []) else
      var (m, last) := Scan(names[..|names| - 1], u);
      var n := names[|names| - 1];
      if u.fold(n) != last then (m[u.fold(n) := n], n) else (m, last)
  }

  ghost function LowerToReal(names: seq<Name>, u: Unicode): map<Name, Name> {
    Scan(names, u).0
  }

  /** Although the loop compares a folded name with an unfolded one, the map has exactly the
      folded names of all children and sends each to a child that folds to it. */
  lemma {:induction false} LowerToRealIsComplete(names: seq<Name>, u: Unicode)
    requires Sane(u) && forall n :: n in names ==> n != []
    ensures var (m, last) := Scan(names, u);
            && (forall f :: f in m <==> exists n :: n in names && u.fold(n) == f)
            && (forall f :: f in m ==> m[f] in names && u.fold(m[f]) == f)
            && (last != [] ==> last in names)
  {
    if names != [] {
      var init, n := names[..|names| - 1], names[|names| - 1];
      assert names == init + [n];
      assert n in names && forall k :: k in init ==> k in names;
      LowerToRealIsComplete(init, u);
      var (m, last) := Scan(init, u);
      var (m', _) := Scan(names, u);
      forall f ensures f in m' <==> exists k :: k in names && u.fold(k) == f {
        if f in m && f != u.fold(n) {
          var k :| k in init && u.fold(k) == f;
          assert k in names;
        } else if f == u.fold(n) {
          assert u.fold(n) == last ==> u.fold(last) == f && last in init;
        }
      }
    }
  }

  /** The entry with the given name in a directory, or one that folds equal. */
  ghost function Resolve(tree: Tree, u: Unicode, dir: Path, comp: Name): Result<Path, Error> {
    match DirNames(tree, dir)
    case Err(e) => Err(e)
    case Ok(names) =>
      if comp in names then Ok(dir + [comp])
      else if u.fold(comp) in LowerToReal(names, u) then Ok(dir + [LowerToReal(names, u)[u.fold(comp)]])
      else Err(NotExist)
  }

  ghost function RealWalk(tree: Tree, u: Unicode, p: Path): Result<Path, Error> {
    if p == [] then Ok([]) else
      match RealWalk(tree, u, p[..|p| - 1])
      case Err(e) => Err(e)
      case Ok(dir) => Resolve(tree, u, dir, p[|p| - 1])
  }

  /** The path r names an existing entry, each of its components folds equal to the one in p,
      and wherever the component of p exists in the directory reached so far, it is taken. */
  ghost predicate IsRealNameOf(tree: Tree, u: Unicode, r: Path, p: Path) {
    && |r| == |p|
    && (p == [] ||
        var n := |p| - 1;
        && IsRealNameOf(tree, u, r[..n], p[..n])
        && r[..n] in tree && r[n] in tree[r[..n]]
        && u.fold(r[n]) == u.fold(p[n])
        && (p[n] in tree[r[..n]] ==> r[n] == p[n]))
  }

  lemma ResolveFinds(tree: Tree, u: Unicode, dir: Path, comp: Name)
    requires Sane(u) && WellFormed(tree)
    ensures match Resolve(tree, u, dir, comp)
            case Ok(r) =>
              && |r| == |dir| + 1 && r[..|dir|] == dir && dir in tree && r[|dir|] in tree[dir]
              && u.fold(r[|dir|]) == u.fold(comp) && (comp in tree[dir] ==> r[|dir|] == comp)
            case Err(e) =>
              if dir in tree then e == NotExist && forall n :: n in tree[dir] ==> u.fold(n) != u.fold(comp)
              else e == if IsEntry(tree, dir) then NotADirectory else NotExist
  {
    if dir in tree {
      LowerToRealIsComplete(tree[dir], u);
    }
  }

  /** The walk gets as far as the directory of component k, where no name folds equal to it,
      or as far as a file that would have to be that directory. */
  ghost predicate FailsAt(tree: Tree, u: Unicode, p: Path, k: nat, e: Error)
    requires k < |p|
  {
    match RealWalk(tree, u, p[..k])
    case Ok(d) =>
      if d in tree then e == NotExist && forall n :: n in tree[d] ==> u.fold(n) != u.fold(p[k])
      else e == NotADirectory && IsEntry(tree, d)
    case Err(_) => false
  }

  /** What the walk finds is the real name; it fails only where there is none. */
  lemma {:induction false} RealWalkFindsRealName(tree: Tree, u: Unicode, p: Path)
    requires Sane(u) && WellFormed(tree)
    ensures match RealWalk(tree, u, p)
            case Ok(r) => IsRealNameOf(tree, u, r, p) && IsEntry(tree, r)
            case Err(e) => exists k :: 0 <= k < |p| && FailsAt(tree, u, p, k, e)
  {
    if p != [] {
      var n := |p| - 1;
      RealWalkFindsRealName(tree, u, p[..n]);
      match RealWalk(tree, u, p[..n])
      case Ok(d) =>
        ResolveFinds(tree, u, d, p[n]);
        if RealWalk(tree, u, p).Err? {
          assert FailsAt(tree, u, p, n, RealWalk(tree, u, p).error);
        }
      case Err(e) =>
        var k :| 0 <= k < n && FailsAt(tree, u, p[..n], k, e);
        assert p[..n][..k] == p[..k];
        assert FailsAt(tree, u, p, k, e);
    }
  }

  /** An entry that exists as asked for is its own real name. */
  lemma {:induction false} ExactNamesAreReal(tree: Tree, u: Unicode, p: Path)
    requires WellFormed(tree) && IsEntry(tree, p)
    ensures RealWalk(tree, u, p) == Ok(p)
  {
    if p != [] {
      ExactNamesAreReal(tree, u, p[..|p| - 1]);
      assert p == p[..|p| - 1] + [p[|p| - 1]];
    }
  }

  /** The entry that the operating system reaches under a path is the one that the walk finds. */
  lemma {:induction false} OsReachesTheRealName(tree: Tree, u: Unicode, ignoresCase: bool, p: Path)
    requires Sane(u) && GoodTree(tree, u, ignoresCase) && OsWalk(tree, u, ignoresCase, p).Ok?
    ensures RealWalk(tree, u, p) == OsWalk(tree, u, ignoresCase, p)
  {
    if p != [] {
      var n := |p| - 1;
      OsReachesTheRealName(tree, u, ignoresCase, p[..n]);
      var d := OsWalk(tree, u, ignoresCase, p[..n]).value;
      ResolveFinds(tree, u, d, p[n]);
      var m := FindMatch(tree[d], u, ignoresCase, p[n]).value;
      assert u.fold(m) == u.fold(p[n]);
      var r := Resolve(tree, u, d, p[n]);
      assert r.Ok?;
      assert r.value[|d|] == m;
      assert r.value == r.value[..|d|] + [r.value[|d|]];
    }
  }

  // ---------- The cache ----------

  datatype CaseNode = CaseNode(expires: int, lowerToReal: map<Name, Name>, children: set<Name>, err: Option<Error>)

  /** The node is what reading the directory now would give. */
  ghost predicate IsFresh(node: CaseNode, tree: Tree, u: Unicode, p: Path) {
    match DirNames(tree, p)
    case Err(e) => node.err == Some(e)
    case Ok(names) =>
      && node.err.None?
      && node.children == (set n | n in names)
      && node.lowerToReal == LowerToReal(names, u)
  }

  const CASE_CACHE_TIMEOUT: int := 1_000_000_000

  /** Each method is one call from beginning to end; calls that overlap are the subject of CaseRaces. */
  class CaseFilesystem {
    // The state of the underlying file system.
    var tree: Tree
    // The least recently used cache of directories. It may lose entries at any time.
    var cache: map<Path, CaseNode>
    const unicode: Unicode
    const ignoresCase: bool

    ghost predicate Valid()
      reads this
    {
      && Sane(unicode) && GoodTree(tree, unicode, ignoresCase)
      && forall p :: p in cache ==> IsFresh(cache[p], tree, unicode, p)
    }

    constructor (tree: Tree, unicode: Unicode, ignoresCase: bool)
      requires Sane(unicode) && GoodTree(tree, unicode, ignoresCase)
      ensures Valid() && this.tree == tree && this.unicode == unicode && this.ignoresCase == ignoresCase
    {
      this.tree := tree;
      this.cache := map[];
      this.unicode := unicode;
      this.ignoresCase := ignoresCase;
    }

    /** The registry's cleaner does this now and then, too. */
    method DropCache()
      requires Valid()
      modifies this`cache
      ensures Valid() && cache == map[]
    {
      cache := map[];
    }

    method NewCaseNode(p: Path, now: int) returns (node: CaseNode)
      requires Valid()
      ensures IsFresh(node, tree, unicode, p)
      ensures node.expires == now + CASE_CACHE_TIMEOUT
    {
      hide CaseFilesystem.Valid;
      if p !in tree {
        var isEntry := p == [] || (p[..|p| - 1] in tree && p[|p| - 1] in tree[p[..|p| - 1]]);
        return CaseNode(now + CASE_CACHE_TIMEOUT, map[], {}, Some(if isEntry then NotADirectory else NotExist));
      }
      var dirNames := tree[p];
      var children: set<Name> := {};
      var lowerToReal: map<Name, Name> := map[];
      var lastLower: Name := [];
      for i := 0 to |dirNames|
        invariant children == set n | n in dirNames[..i]
        invariant (lowerToReal, lastLower) == Scan(dirNames[..i], unicode)
      {
        assert dirNames[..i + 1][..i] == dirNames[..i];
        assert dirNames[..i + 1] == dirNames[..i] + [dirNames[i]];
        var n := dirNames[i];
        children := children + {n};
        var lower := unicode.fold(n);
        if lower != lastLower {
          lowerToReal := lowerToReal[lower := n];
          lastLower := n;
        }
      }
      assert dirNames[..|dirNames|] == dirNames;
      return CaseNode(now + CASE_CACHE_TIMEOUT, lowerToReal, children, None);
    }

    /** Adding a node may evict any others. */
    method Add(p: Path, node: CaseNode)
      requires Valid() && IsFresh(node, tree, unicode, p)
      modifies this`cache
      ensures Valid()
    {
      cache := cache[p := node];
      var evicted: set<Path> := *;
      cache := cache - evicted;
    }

    method GetExpireAdd(p: Path) returns (node: CaseNode)
      requires Valid()
      modifies this`cache
      ensures Valid()
      ensures IsFresh(node, tree, unicode, p)
    {
      var now: int := *;
      if p !in cache {
        node := NewCaseNode(p, now);
        Add(p, node);
        return;
      }
      node := cache[p];
      if node.expires < now {
        node := NewCaseNode(p, now);
        Add(p, node);
      }
    }

    /** The cached lookup gives what the walk without a cache gives. */
    method RealCase(name: Path) returns (r: Result<Path, Error>)
      requires Valid()
      modifies this`cache
      ensures Valid()
      ensures r == RealWalk(tree, unicode, name)
    {
      var realName: Path := [];
      for i := 0 to |name|
        invariant Valid()
        invariant RealWalk(tree, unicode, name[..i]) == Ok(realName)
      {
        WalkStep(tree, unicode, name, i);
        var comp := name[i];
        var node := GetExpireAdd(realName);
        if node.err.Some? {
          return Err(node.err.value);
        }
        if comp !in node.children {
          if unicode.fold(comp) !in node.lowerToReal {
            return Err(NotExist);
          }
          comp := node.lowerToReal[unicode.fold(comp)];
        }
        realName := realName + [comp];
      }
      assert name[..|name|] == name;
      return Ok(realName);
    }

    method CheckCaseExisting(name: Path) returns (r: Result<(), Error>)
      requires Valid()
      modifies this`cache
      ensures Valid()
      ensures r == ExistingResult(tree, unicode, name)
      ensures var found := RealWalk(tree, unicode, name);
              if found.Err? then r == Err(found.error)
              else if |found.value| == |name| &&
                      forall i :: 0 <= i < |name| ==> unicode.nfc(found.value[i]) == unicode.nfc(name[i])
              then r == Ok(()) else r == Err(CaseConflict(name, found.value))
    {
      var realName := RealCase(name);
      if realName == Err(NotExist) {
        DropCache();
        realName := RealCase(name);
      }
      if realName.Err? {
        return Err(realName.error);
      }
      if !SameSpelling(unicode, realName.value, name) {
        return Err(CaseConflict(name, realName.value));
      }
      return Ok(());
    }

    /** The canonical form of the name that was given, or nothing if it has none. */
    method CheckCase(given: Option<Path>) returns (r: Result<(), Error>)
      requires Valid()
      modifies this`cache
      ensures Valid()
      ensures r == CheckResult(tree, unicode, ignoresCase, given)
      ensures given.None? ==> r == Err(InvalidName)
      ensures given.Some? ==>
                var name, walk := given.value, OsWalk(tree, unicode, ignoresCase, given.value);
                if walk.Err? then r == if walk.error == NotExist then Ok(()) else Err(walk.error)
                else if |walk.value| == |name| &&
                        forall i :: 0 <= i < |name| ==> unicode.nfc(walk.value[i]) == unicode.nfc(name[i])
                then r == Ok(()) else r == Err(CaseConflict(name, walk.value))
    {
      if given.None? {
        return Err(InvalidName);
      }
      var stat := OsWalk(tree, unicode, ignoresCase, given.value);
      if stat.Err? {
        if stat.error == NotExist {
          return Ok(());
        }
        return Err(stat.error);
      }
      OsReachesTheRealName(tree, unicode, ignoresCase, given.value);
      r := CheckCaseExisting(given.value);
    }

    /** Mkdir, MkdirAll, Remove, RemoveAll, OpenFile, Create and CreateSymlink. The underlying
        operation has its full effect or none. */
    method Mutate(given: Option<Path>, outcome: Result<Tree, Error>) returns (r: Result<(), Error>)
      requires Valid() && (outcome.Ok? ==> GoodTree(outcome.value, unicode, ignoresCase))
      modifies this
      ensures Valid()
      ensures r.Ok? <==> CheckResult(old(tree), unicode, ignoresCase, given).Ok? && outcome.Ok?
      ensures tree == if r.Ok? then outcome.value else old(tree)
      ensures r.Ok? ==> given.Some? && OnlyUnderRealName(old(tree), unicode, ignoresCase, given.value)
    {
      r := CheckCase(given);
      if r.Err? {
        return;
      }
      CheckedMeansReal(tree, unicode, ignoresCase, given);
      if outcome.Err? {
        return Err(outcome.error);
      }
      Replace(outcome.value);
    }

    /** The effect of a successful operation, after which the cache is dropped. */
    method Replace(tree': Tree)
      requires Sane(unicode) && GoodTree(tree', unicode, ignoresCase)
      modifies this
      ensures Valid() && tree == tree'
    {
      tree := tree';
      cache := map[];
    }

    /** Chmod, Lchown, Chtimes, DirNames, Open, ReadSymlink, Watch, Hide and Unhide. */
    method Inspect(given: Option<Path>, outcome: Result<(), Error>) returns (r: Result<(), Error>)
      requires Valid()
      modifies this`cache
      ensures Valid()
      ensures r.Ok? <==> CheckResult(tree, unicode, ignoresCase, given).Ok? && outcome.Ok?
      ensures r.Ok? ==> given.Some? && OnlyUnderRealName(tree, unicode, ignoresCase, given.value)
    {
      r := CheckCase(given);
      if r.Err? {
        return;
      }
      CheckedMeansReal(tree, unicode, ignoresCase, given);
      r := outcome;
    }

    /** Walking is meant to see changes from outside: the cache is dropped first. */
    method Walk(given: Option<Path>, outcome: Result<(), Error>) returns (r: Result<(), Error>)
      requires Valid()
      modifies this`cache
      ensures Valid()
      ensures r.Ok? <==> CheckResult(tree, unicode, ignoresCase, given).Ok? && outcome.Ok?
      ensures r.Ok? ==> given.Some? && OnlyUnderRealName(tree, unicode, ignoresCase, given.value)
    {
      DropCache();
      r := Inspect(given, outcome);
    }

    /** Lstat and Stat succeed for existing entries under their real names, and for no others. */
    method Stat(given: Option<Path>) returns (r: Result<(), Error>)
      requires Valid()
      modifies this`cache
      ensures Valid()
      ensures given.None? ==> r == Err(InvalidName)
      ensures given.Some? ==>
                var name, walk := given.value, OsWalk(tree, unicode, ignoresCase, given.value);
                if walk.Err? then r == Err(walk.error)
                else if |walk.value| == |name| &&
                        forall i :: 0 <= i < |name| ==> unicode.nfc(walk.value[i]) == unicode.nfc(name[i])
                then r == Ok(()) else r == Err(CaseConflict(name, walk.value))
    {
      if given.None? {
        return Err(InvalidName);
      }
      var stat := OsWalk(tree, unicode, ignoresCase, given.value);
      if stat.Err? {
        return Err(stat.error);
      }
      OsReachesTheRealName(tree, unicode, ignoresCase, given.value);
      r := CheckCaseExisting(given.value);
    }

    /** The new name may be the name of an existing entry if it is spelled right, or if it is
        another spelling of the old name. For the latter the old name is compared as it was
        given, so that it has to be in canonical form already. */
    method Rename(oldpath: Option<Path>, givenInCanonicalForm: bool, newpath: Option<Path>,
        outcome: Result<Tree, Error>)
      returns (r: Result<(), Error>)
      requires Valid() && (outcome.Ok? ==> GoodTree(outcome.value, unicode, ignoresCase))
      modifies this
      ensures Valid()
      ensures r.Ok? ==> oldpath.Some? && newpath.Some? && outcome.Ok?
      ensures tree == if r.Ok? then outcome.value else old(tree)
      ensures r.Ok? && oldpath.Some? ==> OnlyUnderRealName(old(tree), unicode, ignoresCase, oldpath.value)
      ensures r.Ok? && oldpath.Some? && newpath.Some? ==>
                OnlyUnderRealName(old(tree), unicode, ignoresCase, newpath.value) ||
                OsWalk(old(tree), unicode, ignoresCase, newpath.value) == Ok(oldpath.value)
      ensures (r.Ok? <==>
        && outcome.Ok?
        && CheckResult(old(tree), unicode, ignoresCase, oldpath).Ok?
        && (CheckResult(old(tree), unicode, ignoresCase, newpath).Ok? ||
            (givenInCanonicalForm && newpath.Some? &&
             OsWalk(old(tree), unicode, ignoresCase, newpath.value) == Ok(oldpath.value))))
    {
      r := CheckCase(oldpath);
      if r.Err? {
        return;
      }
      r := CheckCase(newpath);
      if r.Err? {
        if newpath.Some? && OsWalk(tree, unicode, ignoresCase, newpath.value).Ok? {
          OsReachesTheRealName(tree, unicode, ignoresCase, newpath.value);
        }
        if !r.error.CaseConflict? || !givenInCanonicalForm || r.error.realName != oldpath.value {
          return;
        }
      } else {
        CheckedMeansReal(tree, unicode, ignoresCase, newpath);
      }
      CheckedMeansReal(tree, unicode, ignoresCase, oldpath);
      if outcome.Err? {
        return Err(outcome.error);
      }
      r := Ok(());
      Replace(outcome.value);
    }
  }

  predicate SameSpelling(u: Unicode, a: Path, b: Path) {
    |a| == |b| && forall i :: 0 <= i < |a| ==> u.nfc(a[i]) == u.nfc(b[i])
  }

  ghost function ExistingResult(tree: Tree, u: Unicode, name: Path): Result<(), Error> {
    match RealWalk(tree, u, name)
    case Err(e) => Err(e)
    case Ok(r) => if SameSpelling(u, r, name) then Ok(()) else Err(CaseConflict(name, r))
  }

  ghost function CheckResult(tree: Tree, u: Unicode, ignoresCase: bool, given: Option<Path>): Result<(), Error> {
    match given
    case None => Err(InvalidName)
    case Some(name) =>
      match OsWalk(tree, u, ignoresCase, name)
      case Ok(_) => ExistingResult(tree, u, name)
      case Err(e) => if e == NotExist then Ok(()) else Err(e)
  }

  /** If the name reaches an existing entry, it is spelled as that entry really is. */
  ghost predicate OnlyUnderRealName(tree: Tree, u: Unicode, ignoresCase: bool, name: Path) {
    match OsWalk(tree, u, ignoresCase, name)
    case Ok(entry) =>
      && IsEntry(tree, entry) && |entry| == |name|
      && forall i :: 0 <= i < |entry| ==> u.nfc(entry[i]) == u.nfc(name[i])
    case Err(_) => true
  }

  lemma CheckedMeansReal(tree: Tree, u: Unicode, ignoresCase: bool, given: Option<Path>)
    requires Sane(u) && GoodTree(tree, u, ignoresCase) && CheckResult(tree, u, ignoresCase, given).Ok?
    ensures given.Some? && OnlyUnderRealName(tree, u, ignoresCase, given.value)
    ensures OsWalk(tree, u, ignoresCase, given.value).Ok? ==>
              var name, entry := given.value, OsWalk(tree, u, ignoresCase, given.value).value;
              |entry| == |name| && forall i :: 0 <= i < |entry| ==> u.nfc(entry[i]) == u.nfc(name[i])
  {
    if OsWalk(tree, u, ignoresCase, given.value).Ok? {
      OsReachesTheRealName(tree, u, ignoresCase, given.value);
      RealWalkFindsRealName(tree, u, given.value);
    }
  }

  /** A name of an entry that differs from the real one in any component is refused, and the conflict names
      both. */
  lemma OtherSpellingsAreRefused(tree: Tree, u: Unicode, ignoresCase: bool, name: Path, i: nat)
    requires Sane(u) && GoodTree(tree, u, ignoresCase) && OsWalk(tree, u, ignoresCase, name).Ok?
    requires var entry := OsWalk(tree, u, ignoresCase, name).value;
             |entry| == |name| > i && u.nfc(entry[i]) != u.nfc(name[i])
    ensures CheckResult(tree, u, ignoresCase, Some(name)) ==
            Err(CaseConflict(name, OsWalk(tree, u, ignoresCase, name).value))
  {
    OsReachesTheRealName(tree, u, ignoresCase, name);
  }

  lemma {:induction false} WalkStep(tree: Tree, u: Unicode, p: Path, i: nat)
    requires i < |p|
    ensures match RealWalk(tree, u, p[..i])
            case Ok(d) =>
              && RealWalk(tree, u, p[..i + 1]) == Resolve(tree, u, d, p[i])
              && (Resolve(tree, u, d, p[i]).Err? ==> RealWalk(tree, u, p) == Err(Resolve(tree, u, d, p[i]).error))
            case Err(_) => true
  {
    assert p[..i + 1][..i] == p[..i];
    if RealWalk(tree, u, p[..i + 1]).Err? {
      ErrorsPropagate(tree, u, p, i + 1);
    }
  }

  lemma {:induction false} ErrorsPropagate(tree: Tree, u: Unicode, p: Path, i: nat)
    requires i <= |p| && RealWalk(tree, u, p[..i]).Err?
    ensures RealWalk(tree, u, p) == RealWalk(tree, u, p[..i])
  {
    if i == |p| {
      assert p[..i] == p;
    } else {
      assert p[..|p| - 1][..i] == p[..i];
      ErrorsPropagate(tree, u, p[..|p| - 1], i);
    }
  }
}
