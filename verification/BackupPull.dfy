/** A teammate's pull from the backup of a project (cmd/vidsync/backup.go): the backend lists
    the materials, and what is missing is downloaded, verified and moved into place. */
module BackupPull {
  import opened Wrappers
  import opened Backup
  import opened BackupRuns

  /** One material as the backend lists it. */
  datatype MaterialOut = MaterialOut(path: Name, contentKey: Key, sizeBytes: int, deleted: bool)

  /** What a download brings: the key that hashing the bytes gives, and their number. */
  datatype Download = Download(key: Key, size: nat)

  /** What the surroundings do while a material is pulled; each step may fail. */
  datatype Attempt = Attempt(
    hasLink: bool,
    hasDirectory: bool,
    download: Option<Download>,
    canHash: bool,
    canRename: bool)

  datatype Result = Result(downloaded: nat, skipped: nat, failed: nat, bytes: nat)

  /** Whether the downloaded bytes may be placed under the name of the material. */
  predicate Accepted(m: MaterialOut, a: Attempt) {
    && a.hasLink && a.hasDirectory && a.download.Some?
    && (m.sizeBytes > 0 ==> a.download.value.size == m.sizeBytes)
    && (m.contentKey != "" ==> a.canHash && a.download.value.key == m.contentKey)
    && a.canRename
  }

  predicate Wanted(m: MaterialOut) {
    !m.deleted && m.path != ""
  }

  predicate AlreadyThere(local: Manifest, m: MaterialOut) {
    Lookup(local, m.path) == m.contentKey && m.contentKey != ""
  }

  ghost function Placed(files: Manifest, local: Manifest, mats: seq<MaterialOut>, attempts: seq<Attempt>): Manifest
    requires |mats| == |attempts|
  {
    if mats == [] then files else
      var n := |mats| - 1;
      var before := Placed(files, local, mats[..n], attempts[..n]);
      if Wanted(mats[n]) && !AlreadyThere(local, mats[n]) && Accepted(mats[n], attempts[n])
      then before[mats[n].path := attempts[n].download.value.key]
      else before
  }

  ghost function CountWanted(mats: seq<MaterialOut>): nat {
    if mats == [] then 0 else CountWanted(mats[..|mats| - 1]) + if Wanted(mats[|mats| - 1]) then 1 else 0
  }

  datatype Fate = Unwanted | Skipped | Rejected | Downloaded

  ghost function FateOf(local: Manifest, m: MaterialOut, a: Attempt): (fate: Fate)
    ensures fate.Downloaded? ==> a.download.Some?
  {
    if !Wanted(m) then Unwanted
    else if AlreadyThere(local, m) then Skipped
    else if Accepted(m, a) then Downloaded
    else Rejected
  }

  ghost function Tally(local: Manifest, mats: seq<MaterialOut>, attempts: seq<Attempt>): Result
    requires |mats| == |attempts|
  {
    if mats == [] then Result(0, 0, 0, 0) else
      var n := |mats| - 1;
      var res := Tally(local, mats[..n], attempts[..n]);
      match FateOf(local, mats[n], attempts[n])
      case Unwanted => res
      case Skipped => res.(skipped := res.skipped + 1)
      case Rejected => res.(failed := res.failed + 1)
      case Downloaded => res.(downloaded := res.downloaded + 1, bytes := res.bytes + attempts[n].download.value.size)
  }

  /** The counts add up, and tell whether anything was skipped or failed. */
  lemma {:induction false} TallyIs(local: Manifest, mats: seq<MaterialOut>, attempts: seq<Attempt>)
    requires |mats| == |attempts|
    ensures var res := Tally(local, mats, attempts);
            && res.downloaded + res.skipped + res.failed == CountWanted(mats)
            && (res.skipped == 0 <==> NothingIsThere(local, mats))
            && (res.failed == 0 <==> NoneIsRejected(local, mats, attempts))
  {
    if mats != [] {
      var n := |mats| - 1;
      TallyIs(local, mats[..n], attempts[..n]);
      OneMoreTallied(local, mats, attempts);
      hide FateOf;
      hide Wanted;
      hide NothingIsThere;
      hide NoneIsRejected;
    }
  }

  /** The counts of a pull are the sums of those of its parts, and a single material that was downloaded
      counts once, with its size. */
  lemma {:induction false} TallyAdds(local: Manifest, mats: seq<MaterialOut>, attempts: seq<Attempt>,
      mats': seq<MaterialOut>, attempts': seq<Attempt>)
    requires |mats| == |attempts| && |mats'| == |attempts'|
    ensures var a, b := Tally(local, mats, attempts), Tally(local, mats', attempts');
            Tally(local, mats + mats', attempts + attempts') ==
            Result(a.downloaded + b.downloaded, a.skipped + b.skipped, a.failed + b.failed, a.bytes + b.bytes)
  {
    hide FateOf;
    if mats' == [] {
      assert mats + mats' == mats && attempts + attempts' == attempts;
    } else {
      var n := |mats'| - 1;
      TallyAdds(local, mats, attempts, mats'[..n], attempts'[..n]);
      assert (mats + mats')[..|mats| + n] == mats + mats'[..n];
      assert (attempts + attempts')[..|mats| + n] == attempts + attempts'[..n];
    }
  }

  lemma TallyOfOne(local: Manifest, m: MaterialOut, a: Attempt)
    ensures var res, fate := Tally(local, [m], [a]), FateOf(local, m, a);
            && (fate.Unwanted? ==> res.downloaded == res.skipped == res.failed == res.bytes == 0)
            && (fate.Skipped? ==> res.skipped == 1 && res.downloaded == res.failed == res.bytes == 0)
            && (fate.Rejected? ==> res.failed == 1 && res.downloaded == res.skipped == res.bytes == 0)
            && (fate.Downloaded? ==> res.downloaded == 1 && res.skipped == res.failed == 0 &&
                                     res.bytes == a.download.value.size)
  {
    assert [m][..0] == [] && [a][..0] == [];
    assert Tally(local, [], []).bytes == 0;
    hide FateOf;
  }

  ghost predicate NothingIsThere(local: Manifest, mats: seq<MaterialOut>) {
    forall m :: m in mats && Wanted(m) ==> !AlreadyThere(local, m)
  }

  ghost predicate NoneIsRejected(local: Manifest, mats: seq<MaterialOut>, attempts: seq<Attempt>)
    requires |mats| == |attempts|
  {
    forall i :: 0 <= i < |mats| ==> !FateOf(local, mats[i], attempts[i]).Rejected?
  }

  lemma OneMoreTallied(local: Manifest, mats: seq<MaterialOut>, attempts: seq<Attempt>)
    requires |mats| == |attempts| > 0
    ensures var n := |mats| - 1;
            var fate := FateOf(local, mats[n], attempts[n]);
            && (fate.Unwanted? <==> !Wanted(mats[n]))
            && (NothingIsThere(local, mats) <==> NothingIsThere(local, mats[..n]) && !fate.Skipped?)
            && (NoneIsRejected(local, mats, attempts) <==>
                NoneIsRejected(local, mats[..n], attempts[..n]) && !fate.Rejected?)
  {
    var n := |mats| - 1;
    assert FateOf(local, mats[n], attempts[n]).Skipped? <==> Wanted(mats[n]) && AlreadyThere(local, mats[n]);
    hide FateOf;
    hide Wanted;
    hide AlreadyThere;
    assert forall m :: m in mats <==> m in mats[..n] || m == mats[n];
    assert forall i :: 0 <= i < n ==> mats[..n][i] == mats[i] && attempts[..n][i] == attempts[i];
  }

  lemma OneMoreMaterial(files: Manifest, local: Manifest, mats: seq<MaterialOut>, attempts: seq<Attempt>, i: nat)
    requires i < |mats| == |attempts|
    ensures var m, a := mats[i], attempts[i];
            var before, res := Placed(files, local, mats[..i], attempts[..i]), Tally(local, mats[..i], attempts[..i]);
            var after, res' := Placed(files, local, mats[..i + 1], attempts[..i + 1]),
              Tally(local, mats[..i + 1], attempts[..i + 1]);
            match FateOf(local, m, a)
            case Unwanted => after == before && res' == res
            case Skipped => after == before && res' == res.(skipped := res.skipped + 1)
            case Rejected => after == before && res' == res.(failed := res.failed + 1)
            case Downloaded =>
              && after == before[m.path := a.download.value.key]
              && res' == res.(downloaded := res.downloaded + 1, bytes := res.bytes + a.download.value.size)
  {
    assert mats[..i + 1][..i] == mats[..i] && attempts[..i + 1][..i] == attempts[..i];
    hide Wanted;
    hide AlreadyThere;
    hide Accepted;
  }

  class Teammate {
    // The content keys of the files on disk under their final names.
    var files: Manifest

    constructor (files: Manifest)
      ensures this.files == files
    {
      this.files := files;
    }

    /** The index of the local files is read once, before the materials are gone through. */
    method BackupPull(local: Manifest, mats: seq<MaterialOut>, attempts: seq<Attempt>) returns (res: Result)
      requires |mats| == |attempts|
      modifies this
      ensures files == Placed(old(files), local, mats, attempts)
      ensures res == Tally(local, mats, attempts)
      ensures res.downloaded + res.skipped + res.failed == CountWanted(mats)
      ensures res.skipped == 0 <==> forall m :: m in mats && Wanted(m) ==> !AlreadyThere(local, m)
      ensures res.failed == 0 <==> forall i :: 0 <= i < |mats| ==> !FateOf(local, mats[i], attempts[i]).Rejected?
    {
      res := Result(0, 0, 0, 0);
      for i := 0 to |mats|
        invariant files == Placed(old(files), local, mats[..i], attempts[..i])
        invariant res == Tally(local, mats[..i], attempts[..i])
      {
        hide Placed;
        hide Tally;
        OneMoreMaterial(old(files), local, mats, attempts, i);
        var m := mats[i];
        if m.deleted || m.path == "" {
          continue;
        }
        if Lookup(local, m.path) == m.contentKey && m.contentKey != "" {
          res := res.(skipped := res.skipped + 1);
          continue;
        }
        if !attempts[i].hasLink {
          res := res.(failed := res.failed + 1);
          continue;
        }
        var n := PullOneMaterial(m, attempts[i]);
        if n.None? {
          res := res.(failed := res.failed + 1);
          continue;
        }
        res := res.(downloaded := res.downloaded + 1, bytes := res.bytes + n.value);
      }
      assert mats[..|mats|] == mats && attempts[..|attempts|] == attempts;
      hide *;
      TallyIs(local, mats, attempts);
    }

    /** The file is downloaded under a temporary name and renamed only after it was verified. */
    method PullOneMaterial(m: MaterialOut, a: Attempt) returns (n: Option<nat>)
      requires a.hasLink
      modifies this
      ensures n.Some? <==> Accepted(m, a)
      ensures n.Some? ==> n.value == a.download.value.size
      ensures files == if Accepted(m, a) then old(files)[m.path := a.download.value.key] else old(files)
    {
      if !a.hasDirectory {
        return None;
      }
      if a.download.None? {
        return None;
      }
      var size := a.download.value.size;
      if m.sizeBytes > 0 && size != m.sizeBytes {
        return None;
      }
      if m.contentKey != "" {
        if !a.canHash {
          return None;
        }
        if a.download.value.key != m.contentKey {
          return None;
        }
      }
      if !a.canRename {
        return None;
      }
      files := files[m.path := a.download.value.key];
      return Some(size);
    }
  }

  /** Whatever links and downloads bring: a file changes only to bytes that have the key of a
      listed material of its name, if that material has one, and no other file changes. */
  lemma {:induction false} OnlyVerifiedBytes(files: Manifest, local: Manifest, mats: seq<MaterialOut>,
      attempts: seq<Attempt>, n: Name)
    requires |mats| == |attempts|
    ensures var files' := Placed(files, local, mats, attempts);
            || ((n in files' <==> n in files) && (n in files ==> files'[n] == files[n]))
            || (n in files' && exists m :: m in mats && Wanted(m) && m.path == n && m.contentKey in {"", files'[n]})
  {
    if mats != [] {
      var k := |mats| - 1;
      OnlyVerifiedBytes(files, local, mats[..k], attempts[..k], n);
      assert mats[k] in mats && forall m :: m in mats[..k] ==> m in mats;
    }
  }

  /** The list the backend makes of its live materials. */
  ghost predicate Lists(mats: seq<MaterialOut>, live: Manifest) {
    && (forall m :: m in mats && Wanted(m) ==> m.path in live && live[m.path] == m.contentKey)
    && (forall n :: n in live && n != "" ==> exists m :: m in mats && Wanted(m) && m.path == n)
  }

  /** The local index is right about the files that it knows. */
  ghost predicate IndexIsRight(local: Manifest, files: Manifest) {
    forall n :: n in local ==> n in files && files[n] == local[n]
  }

  ghost predicate IsListed(mats: seq<MaterialOut>, n: Name) {
    exists m :: m in mats && Wanted(m) && m.path == n
  }

  lemma OneMoreListed(mats: seq<MaterialOut>, m: MaterialOut, n: Name)
    ensures IsListed(mats + [m], n) <==> IsListed(mats, n) || (Wanted(m) && m.path == n)
  {
    hide Wanted;
    assert m in mats + [m];
    if IsListed(mats, n) {
      var x :| x in mats && Wanted(x) && x.path == n;
      assert x in mats + [m];
    }
  }

  /** A material that the backend lists is placed if it was not there before. */
  ghost predicate NothingFails(local: Manifest, mats: seq<MaterialOut>, attempts: seq<Attempt>, live: Manifest)
    requires |mats| == |attempts|
  {
    forall i :: 0 <= i < |mats| && Wanted(mats[i]) ==>
      && mats[i].path in live && live[mats[i].path] == mats[i].contentKey != ""
      && (AlreadyThere(local, mats[i]) || Accepted(mats[i], attempts[i]))
  }

  lemma {:induction false} PullOfName(
      files: Manifest, local: Manifest, mats: seq<MaterialOut>, attempts: seq<Attempt>, live: Manifest, n: Name)
    requires |mats| == |attempts| && NothingFails(local, mats, attempts, live) && IndexIsRight(local, files)
    ensures var files' := Placed(files, local, mats, attempts);
            if IsListed(mats, n) then Holds(files', n, live[n])
            else (n in files' <==> n in files) && (n in files ==> files'[n] == files[n])
    ensures IsListed(mats, n) ==> n in live
  {
    if mats != [] {
      var k := |mats| - 1;
      var init, m := mats[..k], mats[k];
      assert mats == init + [m];
      assert NothingFails(local, init, attempts[..k], live);
      PullOfName(files, local, init, attempts[..k], live, n);
      OneMoreListed(init, m, n);
      hide IsListed;
      assert Wanted(m) && m.path == n && AlreadyThere(local, m) ==> n in local && local[n] == live[n];
    }
  }

  /** When nothing fails, a pull gives the teammate every file that the backend lists, with the
      bytes whose key it lists. */
  lemma PullBringsTheProject(files: Manifest, local: Manifest, mats: seq<MaterialOut>, attempts: seq<Attempt>,
      live: Manifest)
    requires |mats| == |attempts| && Lists(mats, live) && IndexIsRight(local, files)
    requires forall n :: n in live ==> n != "" && live[n] != ""
    requires forall i :: 0 <= i < |mats| ==> !FateOf(local, mats[i], attempts[i]).Rejected?
    ensures forall n :: n in live ==> Holds(Placed(files, local, mats, attempts), n, live[n])
  {
    forall i | 0 <= i < |mats| && Wanted(mats[i])
      ensures mats[i].path in live && live[mats[i].path] == mats[i].contentKey != ""
      ensures AlreadyThere(local, mats[i]) || Accepted(mats[i], attempts[i])
    {
      assert mats[i] in mats && !FateOf(local, mats[i], attempts[i]).Rejected?;
    }
    hide AlreadyThere;
    hide Accepted;
    forall n | n in live ensures Holds(Placed(files, local, mats, attempts), n, live[n]) {
      PullOfName(files, local, mats, attempts, live, n);
      assert IsListed(mats, n);
    }
  }

  /** A download that brings what Dropbox has, while nothing else goes wrong. */
  ghost predicate Faithful(a: Attempt, m: MaterialOut, dropbox: Manifest) {
    && a.hasLink && a.hasDirectory && a.canHash && a.canRename
    && m.path in dropbox
    && a.download.Some? && a.download.value.key == dropbox[m.path]
    && (m.sizeBytes > 0 ==> a.download.value.size == m.sizeBytes)
  }

  /** From the owner's index to the teammate's disk: a pass and a pull without failures bring
      over every eligible file, after any history in which Dropbox did not stay ahead. */
  lemma OwnerToTeammate(events: seq<Event>, f: FolderID, entries: seq<Entry>, files: Manifest, local: Manifest,
                        mats: seq<MaterialOut>, attempts: seq<Attempt>)
    requires Regular(events) && FromIndex(entries) && UploadsSucceed(entries)
    requires UnchangedAreThere(After(events), f, EligiblePart(entries))
    requires "" !in EligiblePart(entries)
    requires |mats| == |attempts| && IndexIsRight(local, files)
    requires Lists(mats, Of(PassState(After(events), f, entries, Complete, true).live, f))
    requires forall i :: 0 <= i < |mats| && Wanted(mats[i]) && !AlreadyThere(local, mats[i]) ==>
                           Faithful(attempts[i], mats[i],
                             Of(PassState(After(events), f, entries, Complete, true).dropbox, f))
    ensures forall n :: n in EligiblePart(entries) ==>
                          Holds(Placed(files, local, mats, attempts), n, EligiblePart(entries)[n])
  {
    var part := EligiblePart(entries);
    OnePassConverges(events, f, entries);
    KeysAreNotEmpty(entries);
    hide PassState;
    hide EligiblePart;
    forall i | 0 <= i < |mats| ensures !FateOf(local, mats[i], attempts[i]).Rejected? {
      assert mats[i] in mats;
    }
    PullBringsTheProject(files, local, mats, attempts, part);
  }

  // ---------- What a pull does to one file ----------

  /** A material that the backend has withdrawn, or that has no name, is passed over. One that the index
      lists with its key is there already; one whose bytes have the wrong number or the wrong key, or
      cannot be had, hashed or moved, is rejected; and every other one is placed. */
  lemma FatesAre(local: Manifest, m: MaterialOut, a: Attempt)
    ensures FateOf(local, m, a).Unwanted? <==> m.deleted || m.path == ""
    ensures FateOf(local, m, a).Skipped? <==>
            !m.deleted && m.path != "" && m.contentKey != "" && m.path in local && local[m.path] == m.contentKey
    ensures FateOf(local, m, a).Downloaded? <==>
            && !m.deleted && m.path != "" && !(m.contentKey != "" && m.path in local && local[m.path] == m.contentKey)
            && a.hasLink && a.hasDirectory && a.download.Some? && a.canRename
            && (m.sizeBytes <= 0 || a.download.value.size == m.sizeBytes)
            && (m.contentKey == "" || (a.canHash && a.download.value.key == m.contentKey))
  {
  }

  /** If a name is listed once, its file changes exactly if the material is downloaded, and then to what was
      brought. */
  lemma {:induction false} FileOfMaterial(files: Manifest, local: Manifest, mats: seq<MaterialOut>,
      attempts: seq<Attempt>, i: nat)
    requires i < |mats| == |attempts| && forall k :: 0 <= k < |mats| && k != i ==> mats[k].path != mats[i].path
    ensures var n, files' := mats[i].path, Placed(files, local, mats, attempts);
            if FateOf(local, mats[i], attempts[i]).Downloaded? then Holds(files', n, attempts[i].download.value.key)
            else (n in files' <==> n in files) && (n in files ==> files'[n] == files[n])
  {
    var k := |mats| - 1;
    if i == k {
      NameNotListed(files, local, mats[..k], attempts[..k], mats[i].path);
    } else {
      FileOfMaterial(files, local, mats[..k], attempts[..k], i);
    }
    hide Accepted;
    hide AlreadyThere;
    hide Wanted;
  }

  lemma {:induction false} NameNotListed(files: Manifest, local: Manifest, mats: seq<MaterialOut>,
      attempts: seq<Attempt>, n: Name)
    requires |mats| == |attempts| && forall m :: m in mats ==> m.path != n
    ensures var files' := Placed(files, local, mats, attempts);
            (n in files' <==> n in files) && (n in files ==> files'[n] == files[n])
  {
    if mats != [] {
      var k := |mats| - 1;
      assert mats[k] in mats && forall m :: m in mats[..k] ==> m in mats;
      NameNotListed(files, local, mats[..k], attempts[..k], n);
    }
  }
}
