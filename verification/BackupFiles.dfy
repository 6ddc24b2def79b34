/** Which files a backup takes (cmd/vidsync/backup.go): regular files that are in the index and neither
    deleted nor invalid, apart from those that the synchroniser keeps for itself. */
module BackupFiles {
  import opened Wrappers
  import opened Backup
  import opened BackupRuns

  // ---------- Names ----------

  /** In the directory of old versions, at the top or anywhere below. */
  ghost predicate IsOldVersion(n: Name) {
    || (exists rest :: n == ".stversions/" + rest)
    || (exists dir, rest :: n == dir + "/.stversions/" + rest)
  }

  ghost predicate IsPlaceOf(n: Name, dir: string, base: string, slashes: string) {
    && n == dir + base + slashes && (dir == "" || dir[|dir| - 1] == '/') && '/' !in base
    && forall c :: c in slashes ==> c == '/'
  }

  /** The last component begins and ends like the name of a temporary file. */
  ghost predicate IsTemporary(n: Name) {
    exists dir, base, slashes :: IsPlaceOf(n, dir, base, slashes) &&
      ".syncthing." <= base && |base| >= 4 && base[|base| - 4..] == ".tmp"
  }

  lemma {:induction false} TrimmedIs(p: string) returns (slashes: string)
    ensures p == TrimSlashes(p) + slashes && forall c :: c in slashes ==> c == '/'
    ensures TrimSlashes(p) != "" ==> TrimSlashes(p)[|TrimSlashes(p)| - 1] != '/'
  {
    if p != "" && p[|p| - 1] == '/' {
      var init := p[..|p| - 1];
      var more := TrimmedIs(init);
      slashes := more + "/";
      assert p == init + "/";
    } else {
      slashes := "";
    }
  }

  lemma {:induction false} TrimmedOf(p: string, slashes: string)
    requires p != "" && p[|p| - 1] != '/' && forall c :: c in slashes ==> c == '/'
    ensures TrimSlashes(p + slashes) == p
  {
    if slashes == "" {
      assert p + slashes == p;
    } else {
      var init := slashes[..|slashes| - 1];
      assert (p + slashes)[..|p + slashes| - 1] == p + init && slashes[|slashes| - 1] in slashes;
      assert forall c :: c in init ==> c in slashes;
      TrimmedOf(p, init);
    }
  }

  lemma {:induction false} AfterLastSlashIs(p: string) returns (dir: string)
    ensures p == dir + AfterLastSlash(p) && (dir == "" || dir[|dir| - 1] == '/') && '/' !in AfterLastSlash(p)
  {
    if p == "" || p[|p| - 1] == '/' {
      dir := p;
    } else {
      dir := AfterLastSlashIs(p[..|p| - 1]);
      assert p == p[..|p| - 1] + [p[|p| - 1]];
    }
  }

  lemma TemporaryByBase(n: Name)
    ensures IsTemporary(n) <==> HasPrefix(Base(n), ".syncthing.") && HasSuffix(Base(n), ".tmp")
  {
    if HasPrefix(Base(n), ".syncthing.") && HasSuffix(Base(n), ".tmp") {
      var slashes := TrimmedIs(n);
      var dir := AfterLastSlashIs(TrimSlashes(n));
      assert IsPlaceOf(n, dir, Base(n), slashes);
    }
    if IsTemporary(n) {
      var dir, base, slashes :| IsPlaceOf(n, dir, base, slashes) &&
        ".syncthing." <= base && |base| >= 4 && base[|base| - 4..] == ".tmp";
      assert base[|base| - 1] == base[|base| - 4..][3] == 'p';
      assert (dir + base)[|dir + base| - 1] == 'p';
      TrimmedOf(dir + base, slashes);
      AfterLastSlashOfFile(dir, base);
    }
  }

  lemma PrefixMeans(n: Name, prefix: string)
    ensures HasPrefix(n, prefix) <==> exists rest :: n == prefix + rest
  {
    if HasPrefix(n, prefix) {
      assert n == prefix + n[|prefix|..];
    }
  }

  lemma ContainsMeans(n: Name, sub: string)
    ensures Contains(n, sub) <==> exists dir, rest :: n == dir + sub + rest
  {
    if Contains(n, sub) {
      var i :| 0 <= i <= |n| - |sub| && n[i..][..|sub|] == sub;
      assert n == n[..i] + sub + n[i..][|sub|..];
    }
    if dir, rest :| n == dir + sub + rest {
      assert n[|dir|..] == sub + rest && n[|dir|..][..|sub|] == sub;
    }
  }

  lemma OldVersionByParts(n: Name)
    ensures IsOldVersion(n) <==> HasPrefix(n, ".stversions/") || Contains(n, "/.stversions/")
  {
    PrefixMeans(n, ".stversions/");
    ContainsMeans(n, "/.stversions/");
    hide HasPrefix;
    hide Contains;
  }

  lemma SkippedMeans(n: Name)
    ensures BackupSkipName(n) <==> n == ".stfolder" || n == ".vidsync" || IsOldVersion(n) || IsTemporary(n)
  {
    OldVersionByParts(n);
    TemporaryByBase(n);
    hide IsOldVersion;
    hide IsTemporary;
    hide Contains;
    hide Base;
  }

  /** In particular these names are skipped, in whatever directory they are. */
  lemma OwnNames(dir: string, x: string, rest: string)
    requires '/' !in x
    ensures IsOldVersion(".stversions/" + rest) && IsOldVersion(dir + "/.stversions/" + rest)
    ensures IsTemporary(".syncthing." + x + ".tmp")
    ensures IsTemporary(dir + "/" + (".syncthing." + x + ".tmp"))
  {
    var start, base := ".syncthing." + x, ".syncthing." + x + ".tmp";
    assert '/' !in ".syncthing." && '/' !in ".tmp";
    EndsWith(start, ".tmp");
    assert ".syncthing." <= start <= base;
    IsInPlace("", base);
    IsInPlace(dir + "/", base);
    assert "" + base == base;
  }

  lemma EndsWith(a: string, b: string)
    ensures (a + b)[|a + b| - |b|..] == b
  {
  }

  lemma IsInPlace(dir: string, base: string)
    requires (dir == "" || dir[|dir| - 1] == '/') && '/' !in base
    ensures IsPlaceOf(dir + base, dir, base, "")
  {
    assert dir + base + "" == dir + base;
  }

  // ---------- What a pass takes ----------

  lemma OneOfItsName(entries: seq<Entry>, e: Entry)
    requires DistinctNames(entries) && e in entries
    ensures e.fi.name in Present(entries) <==> Eligible(e.fi)
  {
    NamesOfEntries(map[], entries);
    hide Eligible;
    if e.fi.name in Present(entries) {
      var x :| x in entries && Eligible(x.fi) && x.fi.name == e.fi.name;
      assert x == e;
    }
  }

  /** After a pass that the backend accepted neither the manifest nor the backend has a file that is deleted,
      invalid, no regular file, or kept by the synchroniser for itself. */
  lemma OtherFilesAreLeftOut(s: State, f: FolderID, entries: seq<Entry>, e: Entry)
    requires Agree(s) && FromIndex(entries) && e in entries
    requires || e.fi.isDeleted || e.fi.isDirectory || e.fi.isSymlink || e.fi.isInvalid
             || e.fi.name == ".stfolder" || e.fi.name == ".vidsync"
             || IsOldVersion(e.fi.name) || IsTemporary(e.fi.name)
    ensures var t, n := PassState(s, f, entries, Complete, true), e.fi.name;
            n !in Of(t.manifests, f) && n !in Of(t.stored.manifests, f) && n !in Of(t.live, f)
  {
    SkippedMeans(e.fi.name);
    OneOfItsName(entries, e);
    PassKeepsAgreement(s, f, entries, Complete, true);
    OnlyPresent(Of(s.manifests, f), entries);
    hide PassState;
    hide PassManifest;
    hide IsOldVersion;
    hide IsTemporary;
    hide BackupSkipName;
  }

  lemma {:induction false} OnlyPresent(prior: Manifest, entries: seq<Entry>)
    ensures PassManifest(prior, entries).Keys <= Present(entries)
  {
    if entries != [] {
      OnlyPresent(prior, entries[..|entries| - 1]);
    }
  }

  /** Every other file is there afterwards: with the key of the index if it was uploaded, or listed with
      this key before, and else with the key that was listed before, if any. */
  lemma FilesAreTaken(s: State, f: FolderID, entries: seq<Entry>, e: Entry)
    requires Agree(s) && FromIndex(entries) && e in entries
    requires !e.fi.isDeleted && !e.fi.isDirectory && !e.fi.isSymlink && !e.fi.isInvalid
    requires e.fi.name != ".stfolder" && e.fi.name != ".vidsync"
    requires !IsOldVersion(e.fi.name) && !IsTemporary(e.fi.name)
    ensures var t, n, prior := PassState(s, f, entries, Complete, true), e.fi.name, Of(s.manifests, f);
            if e.upload.Some? || (n in prior && prior[n] == e.fi.key) then
              Holds(Of(t.manifests, f), n, e.fi.key) && Holds(Of(t.live, f), n, e.fi.key)
            else if n in prior then
              Holds(Of(t.manifests, f), n, prior[n]) && Holds(Of(t.live, f), n, prior[n])
            else
              n !in Of(t.manifests, f) && n !in Of(t.live, f)
  {
    SkippedMeans(e.fi.name);
    hide IsOldVersion;
    hide IsTemporary;
    hide BackupSkipName;
    PassKeepsAgreement(s, f, entries, Complete, true);
    assert e.fi.key != "";
    WhatIsListed(Of(s.manifests, f), entries, e);
    hide PassState;
    hide PassManifest;
  }

  lemma {:induction false} WhatIsListed(prior: Manifest, entries: seq<Entry>, e: Entry)
    requires DistinctNames(entries) && e in entries && Eligible(e.fi)
    ensures var next, n := PassManifest(prior, entries), e.fi.name;
            if e.upload.Some? || Lookup(prior, n) == e.fi.key then Holds(next, n, e.fi.key)
            else if n in prior then Holds(next, n, prior[n])
            else n !in next
  {
    hide Eligible;
    hide PassManifest;
    var k := |entries| - 1;
    if e == entries[k] {
      LastIsListed(prior, entries);
    } else {
      var i :| 0 <= i < |entries| && entries[i] == e;
      assert entries[..k][i] == e && entries[k].fi.name != e.fi.name;
      WhatIsListed(prior, entries[..k], e);
      OthersAreListed(prior, entries, e.fi.name);
    }
  }

  lemma LastIsListed(prior: Manifest, entries: seq<Entry>)
    requires DistinctNames(entries) && entries != [] && Eligible(entries[|entries| - 1].fi)
    ensures var next, e, n := PassManifest(prior, entries), entries[|entries| - 1], entries[|entries| - 1].fi.name;
            if e.upload.Some? || Lookup(prior, n) == e.fi.key then Holds(next, n, e.fi.key)
            else if n in prior then Holds(next, n, prior[n])
            else n !in next
  {
    hide Eligible;
    NotBefore(prior, entries);
    OnlyPresent(prior, entries[..|entries| - 1]);
    hide Present;
  }

  lemma OthersAreListed(prior: Manifest, entries: seq<Entry>, n: Name)
    requires entries != [] && entries[|entries| - 1].fi.name != n
    ensures var before, next := PassManifest(prior, entries[..|entries| - 1]), PassManifest(prior, entries);
            (n in next <==> n in before) && (n in before ==> next[n] == before[n])
  {
    hide Eligible;
  }

  /** An upload counts as failed exactly if the file was to be uploaded and was not. */
  lemma FailureIsReported(prior: Manifest, e: Entry)
    requires e.fi.key != ""
    ensures UploadFails(prior, e) <==>
            && !e.fi.isDeleted && !e.fi.isDirectory && !e.fi.isSymlink && !e.fi.isInvalid
            && e.fi.name != ".stfolder" && e.fi.name != ".vidsync"
            && !IsOldVersion(e.fi.name) && !IsTemporary(e.fi.name)
            && e.upload.None? && !(e.fi.name in prior && prior[e.fi.name] == e.fi.key)
  {
    SkippedMeans(e.fi.name);
    hide IsOldVersion;
    hide IsTemporary;
    hide BackupSkipName;
  }
}
