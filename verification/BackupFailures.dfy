/** What two kinds of failure do to the backup (cmd/vidsync/backup.go): an iteration over the index
    that breaks off, and a sync that takes effect although the manager is told that it failed. */
module BackupFailures {
  import opened Wrappers
  import opened Backup
  import opened BackupRuns

  // ---------- One name ----------

  /** The key that a pass puts for a name, if it does. */
  ghost function PutOf(prior: Manifest, entries: seq<Entry>, n: Name): Option<Key> {
    if entries == [] then None else
      var e := entries[|entries| - 1];
      if e.fi.name == n && Uploaded(prior, e) then Some(e.fi.key) else PutOf(prior, entries[..|entries| - 1], n)
  }

  /** What the new manifest says about a name: the key that was put, if there was one; what the old one
      says, if the file is there but was not uploaded; and else nothing. */
  ghost predicate SaysOf(prior: Manifest, entries: seq<Entry>, next: Manifest, n: Name) {
    match PutOf(prior, entries, n)
    case Some(key) => Holds(next, n, key) && key != Lookup(prior, n) && n in Present(entries)
    case None =>
      if n in Present(entries) then (n in next <==> n in prior) && (n in prior ==> next[n] == prior[n])
      else n !in next
  }

  lemma {:induction false} ManifestSays(prior: Manifest, entries: seq<Entry>, n: Name)
    requires FromIndex(entries)
    ensures SaysOf(prior, entries, PassManifest(prior, entries), n)
  {
    if entries != [] {
      var init := entries[..|entries| - 1];
      assert forall x :: x in init ==> x in entries;
      assert entries[|entries| - 1] in entries;
      ManifestSays(prior, init, n);
      NotBefore(prior, entries);
      if entries[|entries| - 1].fi.name == n {
        NoPutBefore(prior, init, n);
      }
    }
  }

  lemma {:induction false} NoPutBefore(prior: Manifest, entries: seq<Entry>, n: Name)
    requires n !in Present(entries)
    ensures PutOf(prior, entries, n).None?
  {
    if entries != [] {
      NoPutBefore(prior, entries[..|entries| - 1], n);
    }
  }

  // ---------- An iteration that breaks off ----------

  /** When reading the index fails half way, the rest of the index counts as deleted: the
      backend loses every file that the iteration had not reached. */
  lemma IteratorErrorWithdrawsTheRest(s: State, f: FolderID, entries: seq<Entry>, n: Name)
    requires Agree(s) && FromIndex(entries)
    requires n in Of(s.live, f) && n !in Present(entries)
    ensures n !in Of(PassState(s, f, entries, IteratorFails, true).live, f)
  {
    PassKeepsAgreement(s, f, entries, IteratorFails, true);
    ManifestSays(Of(s.manifests, f), entries, n);
  }

  lemma {:induction false} NothingEligible(entries: seq<Entry>, rest: seq<Entry>)
    requires forall e :: e in rest ==> !Eligible(e.fi)
    ensures EligiblePart(entries + rest) == EligiblePart(entries)
  {
    if rest == [] {
      assert entries + rest == entries;
    } else {
      assert (entries + rest)[..|entries + rest| - 1] == entries + rest[..|rest| - 1];
      assert rest[|rest| - 1] in rest;
      NothingEligible(entries, rest[..|rest| - 1]);
    }
  }

  /** If the iteration breaks off after some entries, the records equal the eligible part of the whole
      index all the same exactly if nothing eligible is left. */
  lemma BrokenIterationMirrorsIndex(s: State, f: FolderID, entries: seq<Entry>, rest: seq<Entry>)
    requires Agree(s) && FromIndex(entries + rest) && UploadsSucceed(entries)
    ensures MirrorsIndex(PassState(s, f, entries, IteratorFails, true), f, EligiblePart(entries + rest))
            <==> forall e :: e in rest ==> !Eligible(e.fi)
  {
    hide PassState;
    hide PassManifest;
    hide EligiblePart;
    hide Eligible;
    StartIsFromIndex(entries, rest);
    hide FromIndex;
    PassKeepsAgreement(s, f, entries, IteratorFails, true);
    ManifestOfSuccess(Of(s.manifests, f), entries);
    SameEligiblePart(entries, rest);
    hide UploadsSucceed;
  }

  lemma StartIsFromIndex(entries: seq<Entry>, rest: seq<Entry>)
    requires FromIndex(entries + rest)
    ensures FromIndex(entries)
  {
    assert forall e :: e in entries ==> e in entries + rest;
    assert forall i :: 0 <= i < |entries| ==> entries[i] == (entries + rest)[i];
  }

  lemma SameEligiblePart(entries: seq<Entry>, rest: seq<Entry>)
    requires FromIndex(entries + rest)
    ensures EligiblePart(entries) == EligiblePart(entries + rest) <==> forall e :: e in rest ==> !Eligible(e.fi)
  {
    hide *;
    if forall e :: e in rest ==> !Eligible(e.fi) {
      NothingEligible(entries, rest);
    } else {
      var k :| 0 <= k < |rest| && Eligible(rest[k].fi);
      OneLeftOut(entries, rest, k);
    }
  }

  lemma OneLeftOut(entries: seq<Entry>, rest: seq<Entry>, k: nat)
    requires FromIndex(entries + rest) && k < |rest| && Eligible(rest[k].fi)
    ensures rest[k].fi.name !in EligiblePart(entries) && rest[k].fi.name in EligiblePart(entries + rest)
  {
    hide EligiblePart;
    hide Eligible;
    hide Present;
    hide Phantoms;
    var all, n := entries + rest, rest[k].fi.name;
    assert all[|entries| + k] == rest[k] && rest[k] in all;
    StartIsFromIndex(entries, rest);
    EligiblePartMembers(entries);
    EligiblePartMembers(all);
    NamesOfEntries(map[], entries);
    forall i | 0 <= i < |entries| ensures entries[i].fi.name != n {
      assert all[i] == entries[i];
    }
  }

  // ---------- A reply that is lost ----------

  /** A sync that takes effect although the manager is told that it failed. */
  ghost function LostReply(s: State, f: FolderID, entries: seq<Entry>): State {
    PassState(s, f, entries, Complete, true).(manifests := s.manifests, stored := s.stored)
  }

  /** Agreement needs failed syncs to be rejected before they take effect: after a lost reply
      a file that is deleted before the next pass stays in the backend. */
  lemma LostReplyLeavesAnOrphan(f: FolderID, n: Name, key: Key)
    requires !BackupSkipName(n) && key != ""
    ensures var s := PassState(LostReply(INIT, f, OneFile(n, key)), f, [], Complete, true);
            n in Of(s.live, f) && Of(s.manifests, f) == map[]
  {
    OneFilePass(map[], n, key);
    PassKeepsAgreement(INIT, f, OneFile(n, key), Complete, true);
    assert Of(PassState(INIT, f, OneFile(n, key), Complete, true).live, f) == map[n := key];
    EmptyPass(LostReply(INIT, f, OneFile(n, key)), f);
    hide PassState;
  }

  lemma EmptyPass(s: State, f: FolderID)
    requires Of(s.manifests, f) == map[]
    ensures var t := PassState(s, f, [], Complete, true);
            t.live == s.live && Of(t.manifests, f) == map[]
  {
    assert NoDeltas(map[], []);
  }

  /** A name that the lost request put must not have gone back to the key that the manifest lists; and
      if it is gone, the manifest must list it. One that the request withdrew must not have come back
      with the key that the manifest lists. */
  ghost predicate IsHealed(prior: Manifest, entries: seq<Entry>, index: Manifest, n: Name) {
    match PutOf(prior, entries, n)
    case Some(_) => if n in index then index[n] != Lookup(prior, n) else n in prior
    case None => n in prior && n !in Present(entries) && n in index ==> index[n] != prior[n]
  }

  lemma {:induction false} PutsAreUploads(live: Manifest, prior: Manifest, entries: seq<Entry>)
    requires UploadsSucceed(entries)
    ensures ApplyMaterials(live, PassPuts(prior, entries)) == DropboxAfter(live, prior, entries)
  {
    if entries != [] {
      var init, e := entries[..|entries| - 1], entries[|entries| - 1];
      assert e in entries;
      PutsAreUploads(live, prior, init);
      if Uploaded(prior, e) {
        ApplyOne(live, PassPuts(prior, init), Put(e.fi.name, e.fi.key));
      } else {
        assert PassPuts(prior, entries) == PassPuts(prior, init);
      }
    }
  }

  /** What the backend has after a pass without failures, when it had anything before. */
  lemma LiveAfter(s: State, f: FolderID, entries: seq<Entry>, n: Name)
    requires FromIndex(entries) && UploadsSucceed(entries)
    ensures var live, prior, part := Of(s.live, f), Of(s.manifests, f), EligiblePart(entries);
            var live' := Of(PassState(s, f, entries, Complete, true).live, f);
            if n in part then Holds(live', n, part[n]) <==> (Lookup(prior, n) == part[n] ==> Holds(live, n, part[n]))
            else (n in live' <==> n in live && n !in prior)
  {
    var live, prior := Of(s.live, f), Of(s.manifests, f);
    PutsAreUploads(live, prior, entries);
    DropboxOfSuccess(live, prior, entries, n);
    EligiblePartMembers(entries);
    hide EligiblePart;
    hide Present;
    hide DropboxAfter;
    hide PassPuts;
    if NoDeltas(prior, entries) {
      assert ApplyMaterials(live, []) == live;
    }
  }

  /** One pass without failures makes the backend right again after a lost reply exactly if this is so
      for all names. */
  lemma LostReplyIsHealed(s: State, f: FolderID, lost: seq<Entry>, entries: seq<Entry>)
    requires Agree(s) && FromIndex(lost) && FromIndex(entries) && UploadsSucceed(entries)
    ensures var index := EligiblePart(entries);
            Of(PassState(LostReply(s, f, lost), f, entries, Complete, true).live, f) == index
            <==> forall n :: IsHealed(Of(s.manifests, f), lost, index, n)
  {
    var prior, index := Of(s.manifests, f), EligiblePart(entries);
    var t := LostReply(s, f, lost);
    var live' := Of(PassState(t, f, entries, Complete, true).live, f);
    PassKeepsAgreement(s, f, lost, Complete, true);
    KeysAreNotEmpty(entries);
    forall n
      ensures IsHealed(prior, lost, index, n) <==> (n in live' <==> n in index) && (n in index ==> live'[n] == index[n])
    {
      LiveAfter(t, f, entries, n);
      ManifestSays(prior, lost, n);
      hide PassState;
      hide EligiblePart;
      hide PassManifest;
      hide PutOf;
      hide Present;
    }
  }

  /** A file that changes, is put by a request whose reply is lost, and changes back, passes for
      unchanged: the backend keeps the other key. */
  lemma LostReplyKeepsTheOtherKey(s: State, f: FolderID, n: Name, key1: Key, key2: Key)
    requires Agree(s) && Of(s.manifests, f) == map[n := key1]
    requires !BackupSkipName(n) && key1 != "" && key2 != "" && key1 != key2
    ensures var lost := LostReply(s, f, OneFile(n, key2));
            Of(PassState(lost, f, OneFile(n, key1), Complete, true).live, f) != EligiblePart(OneFile(n, key1))
  {
    OneFilePass(map[n := key1], n, key1);
    OneFilePass(map[n := key1], n, key2);
    var e := OneFile(n, key2)[0];
    assert Uploaded(map[n := key1], e) && PutOf(map[n := key1], OneFile(n, key2), n) == Some(key2);
    LostReplyIsHealed(s, f, OneFile(n, key2), OneFile(n, key1));
    assert !IsHealed(map[n := key1], OneFile(n, key2), map[n := key1], n);
  }
}
