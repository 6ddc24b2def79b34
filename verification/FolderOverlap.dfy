/** Keeping the root directories of folders apart (CheckFolderPathOverlap and SetFolders in
    lib/config/config.go). */
module FolderOverlap {
  import opened Wrappers

  const SEPARATOR: string := "/"

  // ---------- Canonical paths ----------

  // The names on the way from the root of the file system.
  type Path = seq<string>

  ghost predicate IsComponent(c: string) {
    c != "" && forall i :: 0 <= i < |c| ==> c[i] != '/'
  }

  ghost predicate IsPath(p: Path) {
    forall i :: 0 <= i < |p| ==> IsComponent(p[i])
  }

  function Below(p: Path): string {
    if p == [] then "" else SEPARATOR + p[0] + Below(p[1..])
  }

  /** An absolute and clean path as a string. */
  function Render(p: Path): string {
    if p == [] then SEPARATOR else Below(p)
  }

  // Which directory a configured path stands for, with symbolic links resolved.
  type Resolver = string -> Path

  function CanonicalFolderPath(resolve: Resolver, p: string): string {
    if p == "" then "" else Render(resolve(p))
  }

  ghost predicate StartsAnew(s: string) {
    s == "" || s[0] == '/'
  }

  lemma NotLonger(x: string, s: string, y: string, t: string)
    requires IsComponent(x) && |x| > |y| && StartsAnew(t)
    ensures !(x + s <= y + t)
  {
    if t != "" {
      assert (y + t)[|y|] == '/' && (x + s)[|y|] == x[|y|];
    }
  }

  lemma NotShorter(x: string, s: string, y: string, t: string)
    requires IsComponent(y) && |x| < |y| && s != "" && s[0] == '/'
    ensures !(x + s <= y + t)
  {
    assert (x + s)[|x|] == '/' && (y + t)[|x|] == y[|x|];
  }

  lemma SplitAtSeparator(x: string, s: string, y: string, t: string)
    requires IsComponent(x) && IsComponent(y) && s != "" && s[0] == '/' && StartsAnew(t)
    ensures x + s <= y + t <==> x == y && s <= t
  {
    if |x| > |y| {
      NotLonger(x, s, y, t);
    } else if |x| < |y| {
      NotShorter(x, s, y, t);
    } else if x == y {
      DropFirst(x, s, t);
    } else {
      assert (x + s)[..|x|] == x && (y + t)[..|x|] == y;
    }
  }

  lemma BelowOfFirst(p: Path)
    requires p != []
    ensures Below(p) == SEPARATOR + (p[0] + Below(p[1..]))
  {
    assert SEPARATOR + p[0] + Below(p[1..]) == SEPARATOR + (p[0] + Below(p[1..]));
  }

  lemma PrefixOfPaths(a: Path, b: Path)
    requires a != [] && b != []
    ensures a < b <==> a[0] == b[0] && a[1..] < b[1..]
  {
    assert a == [a[0]] + a[1..] && b == [b[0]] + b[1..];
    DropFirst([a[0]], a[1..], b[1..]);
  }

  /** One canonical path with a separator behind it is a prefix of another exactly if the latter is
      a directory properly below the former. */
  lemma {:induction false} StringPrefixMeansBelow(a: Path, b: Path)
    requires IsPath(a) && IsPath(b)
    ensures Below(a) + SEPARATOR <= Below(b) <==> a < b
  {
    if a == [] {
      assert Below(a) + SEPARATOR == SEPARATOR;
      assert b != [] ==> Below(b)[0] == '/';
    } else if b != [] {
      var s, t := Below(a[1..]) + SEPARATOR, Below(b[1..]);
      assert IsPath(a[1..]) && IsPath(b[1..]) && s[0] == '/' && StartsAnew(t);
      assert IsComponent(a[0]) && IsComponent(b[0]);
      StringPrefixMeansBelow(a[1..], b[1..]);
      BelowOfFirst(a);
      BelowOfFirst(b);
      hide *;
      assert Below(a) + SEPARATOR == SEPARATOR + (a[0] + s);
      DropFirst(SEPARATOR, a[0] + s, b[0] + t);
      SplitAtSeparator(a[0], s, b[0], t);
      PrefixOfPaths(a, b);
    }
  }

  lemma DropFirst<T>(x: seq<T>, s: seq<T>, t: seq<T>)
    ensures x + s <= x + t <==> s <= t
  {
    assert s == (x + s)[|x|..] && t == (x + t)[|x|..];
    if s <= t {
      assert t == s + t[|s|..];
      assert x + t == x + s + t[|s|..];
    }
  }

  lemma {:induction false} DifferentPathsReadDifferently(a: Path, b: Path)
    requires IsPath(a) && IsPath(b) && Below(a) == Below(b)
    ensures a == b
  {
    StringPrefixMeansBelow(a, b);
    if a != [] && b != [] {
      assert IsPath(a[1..]) && IsPath(b[1..]);
      assert Below(a) == SEPARATOR + (a[0] + Below(a[1..]));
      assert Below(b) == SEPARATOR + (b[0] + Below(b[1..]));
      assert a[0] + Below(a[1..]) == Below(a)[1..] == Below(b)[1..] == b[0] + Below(b[1..]);
      SplitEqual(a[0], Below(a[1..]), b[0], Below(b[1..]));
      DifferentPathsReadDifferently(a[1..], b[1..]);
      assert a == [a[0]] + a[1..] && b == [b[0]] + b[1..];
    }
  }

  lemma SplitEqual(x: string, s: string, y: string, t: string)
    requires IsComponent(x) && IsComponent(y) && StartsAnew(s) && StartsAnew(t) && x + s == y + t
    ensures x == y && s == t
  {
    SplitAtSeparator(x, s + "/", y, t + "/");
    assert x + (s + "/") == (x + s) + "/" == (y + t) + "/" == y + (t + "/");
    assert s == (x + s)[|x|..] && t == (y + t)[|y|..];
  }

  // ---------- The check ----------

  datatype Folder = Folder(id: string, path: string)

  datatype Overlap = AlreadyUsed(user: string) | Inside(parent: string) | Contains(child: string)

  ghost predicate IsResolver(resolve: Resolver) {
    forall p :: IsPath(resolve(p))
  }

  /** Neither directory is the other one, or inside it. */
  ghost predicate Disjoint(a: Path, b: Path) {
    !(a <= b) && !(b <= a)
  }

  /** What the check finds out about a pair of roots: it has no eyes for the root of the file
      system, to which the separator is not added but belongs already. */
  ghost predicate LooksDisjoint(a: Path, b: Path) {
    Disjoint(a, b) || ((a == []) != (b == []))
  }

  lemma ComparisonOfStrings(a: Path, b: Path)
    requires IsPath(a) && IsPath(b)
    ensures Render(a) == Render(b) <==> a == b
    ensures Render(a) + SEPARATOR <= Render(b) <==> a < b && a != []
  {
    StringPrefixMeansBelow(a, b);
    if a == [] && b != [] {
      assert |b[0]| > 0 && Render(b)[1] == b[0][0] && Render(b)[1] != '/';
    } else if b == [] && a != [] {
      assert |a[0]| > 0 && |Render(a)| > 1;
    } else if Render(a) == Render(b) {
      DifferentPathsReadDifferently(a, b);
    }
  }

  /** Whether there is another folder that is in the way, and how the first such one is. */
  ghost predicate InTheWay(resolve: Resolver, candidate: Folder, other: Folder) {
    && other.id != candidate.id && other.path != "" && candidate.path != ""
    && !LooksDisjoint(resolve(candidate.path), resolve(other.path))
  }

  ghost predicate Describes(resolve: Resolver, candidate: Folder, other: Folder, e: Overlap) {
    var c, o := resolve(candidate.path), resolve(other.path);
    match e
    case AlreadyUsed(id) => id == other.id && c == o
    case Inside(id) => id == other.id && o < c
    case Contains(id) => id == other.id && c < o
  }

  ghost predicate IsFirstInTheWay(resolve: Resolver, candidate: Folder, folders: seq<Folder>, i: nat, e: Overlap)
    requires i < |folders|
  {
    && InTheWay(resolve, candidate, folders[i]) && Describes(resolve, candidate, folders[i], e)
    && forall k :: 0 <= k < i ==> !InTheWay(resolve, candidate, folders[k])
  }

  method CheckFolderPathOverlap(folders: seq<Folder>, candidate: Folder, resolve: Resolver) returns (e: Option<Overlap>)
    requires IsResolver(resolve)
    ensures e.None? <==> forall f :: f in folders ==> !InTheWay(resolve, candidate, f)
    ensures e.Some? ==> exists i :: 0 <= i < |folders| && IsFirstInTheWay(resolve, candidate, folders, i, e.value)
  {
    var cand := CanonicalFolderPath(resolve, candidate.path);
    if cand == "" {
      return None;
    }
    for i := 0 to |folders|
      invariant forall k :: 0 <= k < i ==> !InTheWay(resolve, candidate, folders[k])
    {
      var other := folders[i];
      if other.id == candidate.id {
        continue;
      }
      var op := CanonicalFolderPath(resolve, other.path);
      if op == "" {
        continue;
      }
      ComparisonOfStrings(resolve(candidate.path), resolve(other.path));
      ComparisonOfStrings(resolve(other.path), resolve(candidate.path));
      assert cand == Render(resolve(candidate.path)) && op == Render(resolve(other.path));
      hide Render;
      if cand == op {
        e := Some(AlreadyUsed(other.id));
        assert IsFirstInTheWay(resolve, candidate, folders, i, e.value);
        return;
      } else if op + SEPARATOR <= cand {
        e := Some(Inside(other.id));
        assert IsFirstInTheWay(resolve, candidate, folders, i, e.value);
        return;
      } else if cand + SEPARATOR <= op {
        e := Some(Contains(other.id));
        assert IsFirstInTheWay(resolve, candidate, folders, i, e.value);
        return;
      }
    }
    return None;
  }

  // ---------- Setting folders ----------

  /** The last position of each ID. */
  ghost function Inds(folders: seq<Folder>): map<string, nat> {
    if folders == [] then map[] else
      Inds(folders[..|folders| - 1])[folders[|folders| - 1].id := |folders| - 1]
  }

  lemma {:induction false} IndsIs(folders: seq<Folder>)
    ensures forall id :: id in Inds(folders) ==> Inds(folders)[id] < |folders| && folders[Inds(folders)[id]].id == id
    ensures forall i :: 0 <= i < |folders| ==> folders[i].id in Inds(folders) && i <= Inds(folders)[folders[i].id]
  {
    if folders != [] {
      IndsIs(folders[..|folders| - 1]);
      assert forall i :: 0 <= i < |folders| - 1 ==> folders[i] == folders[..|folders| - 1][i];
    }
  }

  /** The new folders one after the other: each takes the place of the folder with its ID, or is
      new. */
  ghost function SetAll(present: seq<Folder>, folders: seq<Folder>): (r: seq<Folder>)
    ensures |r| >= |present|
    ensures forall i :: 0 <= i < |present| ==> r[i].id == present[i].id
    ensures forall i :: |present| <= i < |r| ==> r[i].id !in Inds(present)
  {
    if folders == [] then present else
      var r, f := SetAll(present, folders[..|folders| - 1]), folders[|folders| - 1];
      IndsIs(present);
      if f.id in Inds(present) then r[Inds(present)[f.id] := f] else r + [f]
  }

  lemma FolderReplaced(present: seq<Folder>, folders: seq<Folder>, i: nat, r: seq<Folder>, filtered: seq<Folder>)
    requires i < |folders| && |r| == |present| && r + filtered == SetAll(present, folders[..i])
    requires folders[i].id in Inds(present) && Inds(present)[folders[i].id] < |present|
    ensures r[Inds(present)[folders[i].id] := folders[i]] + filtered == SetAll(present, folders[..i + 1])
  {
    assert folders[..i + 1][..i] == folders[..i];
    var k := Inds(present)[folders[i].id];
    assert (r + filtered)[k := folders[i]] == r[k := folders[i]] + filtered;
    hide Inds;
  }

  lemma FolderAppended(present: seq<Folder>, folders: seq<Folder>, i: nat, r: seq<Folder>, filtered: seq<Folder>)
    requires i < |folders| && |r| == |present| && r + filtered == SetAll(present, folders[..i])
    requires folders[i].id !in Inds(present)
    ensures r + (filtered + [folders[i]]) == SetAll(present, folders[..i + 1])
  {
    assert folders[..i + 1][..i] == folders[..i];
    assert (r + filtered) + [folders[i]] == r + (filtered + [folders[i]]);
    hide Inds;
  }

  method SetFolders(present: seq<Folder>, folders: seq<Folder>) returns (r: seq<Folder>)
    ensures r == SetAll(present, folders)
  {
    var inds: map<string, nat> := map[];
    for i := 0 to |present|
      invariant inds == Inds(present[..i])
    {
      assert present[..i + 1][..i] == present[..i];
      inds := inds[present[i].id := i];
    }
    assert present[..|present|] == present;
    IndsIs(present);
    r := present;
    var filtered: seq<Folder> := [];
    for i := 0 to |folders|
      invariant |r| == |present|
      invariant r + filtered == SetAll(present, folders[..i])
    {
      hide SetAll;
      hide Inds;
      var folder := folders[i];
      if folder.id in inds {
        FolderReplaced(present, folders, i, r, filtered);
        r := r[inds[folder.id] := folder];
      } else {
        FolderAppended(present, folders, i, r, filtered);
        filtered := filtered + [folder];
      }
    }
    assert folders[..|folders|] == folders;
    r := r + filtered;
  }

  // ---------- Folders stay apart ----------

  ghost predicate DistinctIDs(folders: seq<Folder>) {
    forall i, j :: 0 <= i < j < |folders| ==> folders[i].id != folders[j].id
  }

  ghost predicate Apart(resolve: Resolver, a: Folder, b: Folder) {
    a.path != "" && b.path != "" ==> Disjoint(resolve(a.path), resolve(b.path))
  }

  ghost predicate AllApart(resolve: Resolver, folders: seq<Folder>) {
    forall i, j :: 0 <= i < j < |folders| ==> Apart(resolve, folders[i], folders[j])
  }

  /** No folder has the root of the file system as its own. */
  ghost predicate NoneAtRoot(resolve: Resolver, folders: seq<Folder>) {
    forall f :: f in folders && f.path != "" ==> resolve(f.path) != []
  }

  ghost predicate Accepted(resolve: Resolver, folders: seq<Folder>, candidate: Folder) {
    forall f :: f in folders ==> !InTheWay(resolve, candidate, f)
  }

  /** A candidate passes the check exactly if its directory is apart from those of all other folders,
      or it is the root of the file system, or one of theirs is; but not both. */
  lemma WhatTheCheckMeans(resolve: Resolver, folders: seq<Folder>, candidate: Folder)
    ensures Accepted(resolve, folders, candidate) <==>
            forall f :: f in folders && f.id != candidate.id && f.path != "" && candidate.path != "" ==>
              Apart(resolve, candidate, f) || ((resolve(candidate.path) == []) != (resolve(f.path) == []))
  {
    forall f | f in folders && f.id != candidate.id && f.path != "" && candidate.path != ""
      ensures InTheWay(resolve, candidate, f) <==>
              !(Apart(resolve, candidate, f) || ((resolve(candidate.path) == []) != (resolve(f.path) == [])))
    {
    }
  }

  /** Storing a candidate that passed the check keeps all folders apart. */
  lemma SetFolderKeepsApart(resolve: Resolver, folders: seq<Folder>, candidate: Folder)
    requires DistinctIDs(folders) && AllApart(resolve, folders)
    requires NoneAtRoot(resolve, folders + [candidate])
    requires Accepted(resolve, folders, candidate)
    ensures var r := SetAll(folders, [candidate]);
            DistinctIDs(r) && AllApart(resolve, r) && NoneAtRoot(resolve, r)
  {
    IndsIs(folders);
    assert [candidate][..0] == [];
    var r := SetAll(folders, [candidate]);
    assert SetAll(folders, []) == folders;
    assert forall f :: f in r ==> f in folders + [candidate];
    forall i, j | 0 <= i < j < |r| ensures r[i].id != r[j].id && Apart(resolve, r[i], r[j]) {
      if r[i] == candidate && (i == |folders| || folders[i] != candidate || folders[i].id == candidate.id) {
        assert folders[j] in folders;
        assert !InTheWay(resolve, candidate, folders[j]);
        assert candidate in folders + [candidate] && folders[j] in folders + [candidate];
      } else if j == |folders| || folders[j] != r[j] {
        assert folders[i] in folders && r[j] == candidate;
        assert !InTheWay(resolve, candidate, folders[i]);
        assert candidate in folders + [candidate] && folders[i] in folders + [candidate];
      }
    }
  }

  /** What is left of a history of changes of which each is made only if the check passes. */
  ghost function AfterChanges(resolve: Resolver, folders: seq<Folder>, candidates: seq<Folder>): seq<Folder> {
    if candidates == [] then folders else
      var r, c := AfterChanges(resolve, folders, candidates[..|candidates| - 1]), candidates[|candidates| - 1];
      if Accepted(resolve, r, c) then SetAll(r, [c]) else r
  }

  lemma {:induction false} FoldersStayApart(resolve: Resolver, folders: seq<Folder>, candidates: seq<Folder>)
    requires DistinctIDs(folders) && AllApart(resolve, folders)
    requires NoneAtRoot(resolve, folders) && NoneAtRoot(resolve, candidates)
    ensures var r := AfterChanges(resolve, folders, candidates);
            DistinctIDs(r) && AllApart(resolve, r) && NoneAtRoot(resolve, r)
  {
    if candidates != [] {
      var n := |candidates| - 1;
      FoldersStayApart(resolve, folders, candidates[..n]);
      var r, c := AfterChanges(resolve, folders, candidates[..n]), candidates[n];
      if Accepted(resolve, r, c) {
        assert c in candidates;
        SetFolderKeepsApart(resolve, r, c);
      }
    }
  }

  /** A folder at the root of the file system contains every other one, and passes all the same. */
  lemma RootIsOverlooked(resolve: Resolver, folders: seq<Folder>, candidate: Folder)
    requires candidate.path != "" && resolve(candidate.path) == [] && NoneAtRoot(resolve, folders)
    ensures Accepted(resolve, folders, candidate)
    ensures forall f :: f in folders && f.path != "" ==> !Apart(resolve, candidate, f)
  {
  }

  /** What the error says about the two directories. */
  lemma DescriptionMeans(resolve: Resolver, candidate: Folder, folders: seq<Folder>, i: nat, e: Overlap)
    requires i < |folders| && IsFirstInTheWay(resolve, candidate, folders, i, e)
    ensures var c, o := resolve(candidate.path), resolve(folders[i].path);
            && (e.AlreadyUsed? ==> e.user == folders[i].id && c == o)
            && (e.Inside? ==> e.parent == folders[i].id && |o| < |c| && c[..|o|] == o)
            && (e.Contains? ==> e.child == folders[i].id && |c| < |o| && o[..|c|] == c)
    ensures folders[i].id != candidate.id && folders[i].path != "" && candidate.path != ""
    ensures forall k :: 0 <= k < i && folders[k].id != candidate.id && folders[k].path != "" ==>
              Apart(resolve, candidate, folders[k]) ||
              ((resolve(candidate.path) == []) != (resolve(folders[k].path) == []))
  {
  }

  /** Folders without a new version stay as they are in their places, one with the ID of a new folder gives
      way to it, and a folder with an ID of its own is appended. */
  lemma OneFolderSet(present: seq<Folder>, f: Folder)
    requires DistinctIDs(present)
    ensures var r := SetAll(present, [f]);
            && (forall i :: 0 <= i < |present| ==> r[i] == if present[i].id == f.id then f else present[i])
            && r[|present|..] == if exists i :: 0 <= i < |present| && present[i].id == f.id then [] else [f]
  {
    IndsIs(present);
    assert [f][..0] == [] && SetAll(present, []) == present;
  }

  /** Of a history the last candidate is stored, and all others are kept but for one with its ID, exactly if it is
      apart from all others as WhatTheCheckMeans says. Otherwise nothing changes. */
  lemma LastCandidate(resolve: Resolver, folders: seq<Folder>, candidates: seq<Folder>, c: Folder)
    requires DistinctIDs(AfterChanges(resolve, folders, candidates))
    ensures var before, after := AfterChanges(resolve, folders, candidates),
                                 AfterChanges(resolve, folders, candidates + [c]);
            if forall f :: f in before && f.id != c.id && f.path != "" && c.path != "" ==>
                 Apart(resolve, c, f) || ((resolve(c.path) == []) != (resolve(f.path) == []))
            then c in after && forall f: Folder :: f.id != c.id ==> (f in after <==> f in before)
            else after == before
  {
    var before := AfterChanges(resolve, folders, candidates);
    assert (candidates + [c])[..|candidates|] == candidates;
    WhatTheCheckMeans(resolve, before, c);
    OneFolderSet(before, c);
    hide Apart;
    var r := SetAll(before, [c]);
    hide SetAll;
    hide Accepted;
    assert r == r[..|before|] + r[|before|..];
    forall f: Folder | f.id != c.id ensures f in r <==> f in before {
      if f in before {
        var i :| 0 <= i < |before| && before[i] == f;
        assert r[i] == f;
      }
    }
    if i :| 0 <= i < |before| && before[i].id == c.id {
      assert r[i] == c;
    } else {
      assert r[|before|..][0] == c;
    }
  }

  lemma {:induction false} IdsOfSetAll(present: seq<Folder>, folders: seq<Folder>)
    ensures forall i :: 0 <= i < |present| ==>
              SetAll(present, folders)[i] == present[i] || SetAll(present, folders)[i] in folders
    ensures forall f :: f in SetAll(present, folders)[|present|..] ==> f in folders
  {
    if folders != [] {
      var init, f := folders[..|folders| - 1], folders[|folders| - 1];
      IdsOfSetAll(present, init);
      IndsIs(present);
      assert folders == init + [f] && f in folders && forall g :: g in init ==> g in folders;
      var before, after := SetAll(present, init), SetAll(present, folders);
      if f.id in Inds(present) {
        assert after[|present|..] == before[|present|..];
      } else {
        assert after[|present|..] == before[|present|..] + [f];
      }
      hide SetAll;
    }
  }
}
