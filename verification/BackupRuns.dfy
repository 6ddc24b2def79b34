/** Runs of the backup (cmd/vidsync/backup.go): passes with any failures, restarts, and folders
    for which backup is enabled or disabled between passes. */
module BackupRuns {
  import opened Wrappers
  import opened Backup

  /** `Disable` happens after the backend has unlinked the folder and dropped its materials. */
  datatype Event =
    | Pass(f: FolderID, entries: seq<Entry>, stop: Stop, synced: bool)
    | Restart
    | Enable(target: Target)
    | Disable(f: FolderID)

  const INIT: State := State(map[], map[], Persisted(map[], map[]), map[], map[])

  ghost function Next(s: State, e: Event): State {
    match e
    case Pass(f, entries, stop, synced) => PassState(s, f, entries, stop, synced)
    case Restart => s.(targets := s.stored.targets, manifests := s.stored.manifests)
    case Enable(t) =>
      s.(targets := s.targets[t.folderID := t], stored := Persisted(s.targets[t.folderID := t], s.manifests))
    case Disable(f) =>
      s.(targets := s.targets - {f}, manifests := s.manifests - {f},
         stored := Persisted(s.targets - {f}, s.manifests - {f}), live := s.live - {f})
  }

  ghost function After(events: seq<Event>): State {
    if events == [] then INIT else Next(After(events[..|events| - 1]), events[|events| - 1])
  }

  /** The index has one entry for each name, and a content key for each file. */
  ghost predicate FromIndex(entries: seq<Entry>) {
    DistinctNames(entries) && forall e :: e in entries && Eligible(e.fi) ==> e.fi.key != ""
  }

  ghost predicate Regular(events: seq<Event>) {
    forall e :: e in events && e.Pass? ==> FromIndex(e.entries)
  }

  /** The three records of what is backed up. */
  ghost predicate Agree(s: State) {
    && s.stored.targets == s.targets
    && forall f :: Of(s.manifests, f) == Of(s.stored.manifests, f) == Of(s.live, f)
  }

  /** What a pass does to the three records. */
  lemma PassRecords(s: State, f: FolderID, entries: seq<Entry>, stop: Stop, synced: bool)
    ensures var prior, t := Of(s.manifests, f), PassState(s, f, entries, stop, synced);
            var next := PassManifest(prior, entries);
            var sent := !stop.Cancelled? && !NoDeltas(prior, entries) && synced;
            && t.targets == s.targets
            && t.manifests == (if sent || (!stop.Cancelled? && NoDeltas(prior, entries))
                               then s.manifests[f := next] else s.manifests)
            && t.stored == (if sent then Persisted(s.targets, s.manifests[f := next]) else s.stored)
            && t.live == if sent
                         then s.live[f := ApplyMaterials(Of(s.live, f), PassPuts(prior, entries)) -
                                          (prior.Keys - Present(entries))]
                         else s.live
  {
    hide PassManifest;
    hide NoDeltas;
    hide ApplyMaterials;
    hide PassPuts;
    hide Present;
    hide DropboxAfter;
    hide SetFiles;
  }

  /** A pass that the backend accepted, or that had nothing to tell it, leaves the new manifest
      everywhere; any other leaves the old one everywhere. */
  lemma PassKeepsAgreement(s: State, f: FolderID, entries: seq<Entry>, stop: Stop, synced: bool)
    requires Agree(s) && FromIndex(entries)
    ensures Agree(PassState(s, f, entries, stop, synced))
    ensures var prior := Of(s.manifests, f);
            Of(PassState(s, f, entries, stop, synced).manifests, f) ==
            if !stop.Cancelled? && (synced || NoDeltas(prior, entries)) then PassManifest(prior, entries) else prior
  {
    var prior := Of(s.manifests, f);
    var t := PassState(s, f, entries, stop, synced);
    hide PassState;
    hide PassManifest;
    hide NoDeltas;
    hide ApplyMaterials;
    hide PassPuts;
    hide Present;
    hide FromIndex;
    PassRecords(s, f, entries, stop, synced);
    ManifestIsLive(prior, entries);
    if NoDeltas(prior, entries) {
      NoDeltasNoChange(prior, entries);
    }
    forall g ensures Of(t.manifests, g) == Of(t.stored.manifests, g) == Of(t.live, g) {
      assert Of(s.manifests, g) == Of(s.stored.manifests, g) == Of(s.live, g);
    }
  }

  /** When there is nothing to send, the new manifest is the old one. */
  lemma NoDeltasNoChange(prior: Manifest, entries: seq<Entry>)
    requires FromIndex(entries) && NoDeltas(prior, entries)
    ensures PassManifest(prior, entries) == prior
  {
    ManifestIsLive(prior, entries);
    assert ApplyMaterials(prior, []) == prior;
    assert prior.Keys - Present(entries) == {};
    assert prior - {} == prior;
  }

  lemma ManifestIsLive(prior: Manifest, entries: seq<Entry>)
    requires FromIndex(entries)
    ensures ApplyMaterials(prior, PassPuts(prior, entries)) - (prior.Keys - Present(entries)) ==
        PassManifest(prior, entries)
  {
    var gone := prior.Keys - Present(entries);
    var tombs := TombstonesOf(gone);
    DeltasMakeTheManifest(prior, entries, tombs);
    ApplyTombstones(prior, PassPuts(prior, entries), tombs, gone);
  }

  ghost function TombstonesOf(gone: set<Name>): (r: seq<Material>)
    ensures AreTombstonesOf(r, gone)
  {
    if gone == {} then [] else
      var n :| n in gone;
      var rest := TombstonesOf(gone - {n});
      rest + [Tombstone(n)]
  }

  lemma OtherEventsKeepAgreement(s: State, e: Event)
    requires Agree(s) && !e.Pass?
    ensures Agree(Next(s, e))
  {
    var t := Next(s, e);
    forall f ensures Of(t.manifests, f) == Of(t.stored.manifests, f) == Of(t.live, f) {
      assert Of(s.manifests, f) == Of(s.stored.manifests, f) == Of(s.live, f);
    }
  }

  /** At every point between passes of every run, memory, disk and backend agree. */
  lemma {:induction false} AlwaysAgree(events: seq<Event>)
    requires Regular(events)
    ensures Agree(After(events))
    ensures var s := After(events);
            && s.stored.targets == s.targets
            && forall f :: Of(s.manifests, f) == Of(s.stored.manifests, f) == Of(s.live, f)
  {
    if events != [] {
      var init, e := events[..|events| - 1], events[|events| - 1];
      AlwaysAgree(init);
      assert e in events;
      hide Agree;
      if e.Pass? {
        PassKeepsAgreement(After(init), e.f, e.entries, e.stop, e.synced);
      } else {
        OtherEventsKeepAgreement(After(init), e);
      }
    }
  }

  // ---------- Convergence ----------

  /** The eligible part of what an iteration over the index yields. */
  ghost function EligiblePart(entries: seq<Entry>): Manifest {
    if entries == [] then map[] else
      var m, e := EligiblePart(entries[..|entries| - 1]), entries[|entries| - 1];
      if Eligible(e.fi) then m[e.fi.name := e.fi.key] else m
  }

  ghost predicate Holds(files: Manifest, name: Name, key: Key) {
    name in files && files[name] == key
  }

  lemma {:induction false} EligiblePartMembers(entries: seq<Entry>)
    requires DistinctNames(entries)
    ensures forall e :: e in entries && Eligible(e.fi) ==>
        Holds(EligiblePart(entries), e.fi.name, e.fi.key)
    ensures EligiblePart(entries).Keys == Present(entries)
  {
    if entries != [] {
      var init, last := entries[..|entries| - 1], entries[|entries| - 1];
      assert entries == init + [last];
      EligiblePartMembers(init);
    }
  }

  /** Every upload succeeds and commits the bytes whose key the index has. */
  ghost predicate UploadsSucceed(entries: seq<Entry>) {
    forall e :: e in entries ==> e.upload == Some(e.fi.key)
  }

  lemma {:induction false} ManifestOfSuccess(prior: Manifest, entries: seq<Entry>)
    requires UploadsSucceed(entries)
    ensures PassManifest(prior, entries) == EligiblePart(entries)
  {
    if entries != [] {
      assert entries[|entries| - 1] in entries;
      ManifestOfSuccess(prior, entries[..|entries| - 1]);
    }
  }

  /** What a file in Dropbox is after a pass whose uploads succeed: the bytes of the index,
      unless the manifest made the pass leave other bytes there. */
  lemma {:induction false} DropboxOfSuccess(files: Manifest, prior: Manifest, entries: seq<Entry>, n: Name)
    requires DistinctNames(entries) && UploadsSucceed(entries)
    ensures var files', part := DropboxAfter(files, prior, entries), EligiblePart(entries);
            if n in part then Holds(files', n, part[n]) <==> (Lookup(prior, n) == part[n] ==> Holds(files, n, part[n]))
            else (n in files' <==> n in files) && (n in files ==> files'[n] == files[n])
  {
    if entries != [] {
      var init, e := entries[..|entries| - 1], entries[|entries| - 1];
      assert e in entries;
      DropboxOfSuccess(files, prior, init, n);
      if e.fi.name == n {
        NotBefore(prior, entries);
      }
    }
  }

  lemma NotBefore(prior: Manifest, entries: seq<Entry>)
    requires DistinctNames(entries) && entries != []
    ensures entries[|entries| - 1].fi.name !in EligiblePart(entries[..|entries| - 1])
    ensures entries[|entries| - 1].fi.name !in Present(entries[..|entries| - 1])
  {
    var init := entries[..|entries| - 1];
    EligiblePartMembers(init);
    NamesOfEntries(prior, init);
  }

  ghost predicate MirrorsIndex(s: State, f: FolderID, index: Manifest) {
    && Of(s.manifests, f) == index
    && Of(s.stored.manifests, f) == index
    && Of(s.live, f) == index
  }

  ghost predicate DropboxHas(s: State, f: FolderID, index: Manifest) {
    forall n :: n in index ==> Holds(Of(s.dropbox, f), n, index[n])
  }

  /** The files that the next pass takes for unchanged have the bytes of the manifest in Dropbox. */
  ghost predicate UnchangedAreThere(s: State, f: FolderID, index: Manifest) {
    forall n :: n in index && n in Of(s.manifests, f) && Of(s.manifests, f)[n] == index[n] ==>
        Holds(Of(s.dropbox, f), n, index[n])
  }

  /** After any history of failures, one pass without failures makes manifest, disk and backend
      equal to the eligible part of the index. Dropbox then has these files exactly when the
      ones that are unchanged since the last manifest were there before the pass. */
  lemma OnePassConverges(events: seq<Event>, f: FolderID, entries: seq<Entry>)
    requires Regular(events) && FromIndex(entries) && UploadsSucceed(entries)
    ensures var s' := PassState(After(events), f, entries, Complete, true);
            && MirrorsIndex(s', f, EligiblePart(entries))
            && Of(s'.manifests, f) == Of(s'.stored.manifests, f) == Of(s'.live, f) == EligiblePart(entries)
            && (DropboxHas(s', f, EligiblePart(entries)) <==>
               UnchangedAreThere(After(events), f, EligiblePart(entries)))
  {
    var s, part := After(events), EligiblePart(entries);
    var s', prior := PassState(s, f, entries, Complete, true), Of(s.manifests, f);
    AlwaysAgree(events);
    PassKeepsAgreement(s, f, entries, Complete, true);
    ManifestOfSuccess(prior, entries);
    EligiblePartMembers(entries);
    KeysAreNotEmpty(entries);
    DropboxOfPass(s, f, entries, Complete, true);
    hide PassState;
    hide DropboxAfter;
    hide EligiblePart;
    forall n | n in part
      ensures Holds(Of(s'.dropbox, f), n, part[n]) <==>
          (n in prior && prior[n] == part[n] ==> Holds(Of(s.dropbox, f), n, part[n]))
    {
      DropboxOfSuccess(Of(s.dropbox, f), prior, entries, n);
    }
  }

  /** A pass writes to the directory of its own folder only. */
  lemma DropboxOfPass(s: State, f: FolderID, entries: seq<Entry>, stop: Stop, synced: bool)
    ensures var d' := PassState(s, f, entries, stop, synced).dropbox;
            && Of(d', f) == DropboxAfter(Of(s.dropbox, f), Of(s.manifests, f), entries)
            && forall g :: g != f ==> Of(d', g) == Of(s.dropbox, g)
  {
    hide DropboxAfter;
    hide SetFiles;
  }

  lemma {:induction false} KeysAreNotEmpty(entries: seq<Entry>)
    requires FromIndex(entries)
    ensures forall n :: n in EligiblePart(entries) ==> EligiblePart(entries)[n] != ""
  {
    if entries != [] {
      var init := entries[..|entries| - 1];
      assert forall e :: e in init ==> e in entries;
      assert entries[|entries| - 1] in entries;
      KeysAreNotEmpty(init);
    }
  }

  // ---------- When Dropbox is ahead of the backend ----------

  /** A pass that commits the bytes the index announces, and whose uploads the backend learns of. */
  ghost predicate Settled(s: State, e: Event) {
    e.Pass? ==>
      && HonestUploads(e.entries)
      && (PassPuts(Of(s.manifests, e.f), e.entries) != [] ==> !e.stop.Cancelled? && e.synced)
  }

  ghost predicate AllSettled(events: seq<Event>) {
    events == [] || (AllSettled(events[..|events| - 1]) && Settled(After(events[..|events| - 1]), events[|events| - 1]))
  }

  /** What the manifests list is in Dropbox. */
  ghost predicate ManifestsAreThere(s: State) {
    forall f :: IsThere(Of(s.manifests, f), Of(s.dropbox, f))
  }

  ghost predicate IsThere(m: Manifest, files: Manifest) {
    forall n :: n in m ==> Holds(files, n, m[n])
  }

  ghost predicate HonestUploads(entries: seq<Entry>) {
    forall x :: x in entries && x.upload.Some? ==> x.upload == Some(x.fi.key)
  }

  lemma {:induction false} PassLeavesFilesThere(files: Manifest, prior: Manifest, entries: seq<Entry>, n: Name)
    requires FromIndex(entries) && HonestUploads(entries)
    requires n in prior ==> Holds(files, n, prior[n])
    ensures n in PassManifest(prior, entries) ==>
        Holds(DropboxAfter(files, prior, entries), n, PassManifest(prior, entries)[n])
    ensures n !in Present(entries) && n in prior ==> Holds(DropboxAfter(files, prior, entries), n, prior[n])
  {
    if entries != [] {
      var init, e := entries[..|entries| - 1], entries[|entries| - 1];
      assert e in entries && forall x :: x in init ==> x in entries;
      PassLeavesFilesThere(files, prior, init, n);
      if e.fi.name == n {
        NotBefore(prior, entries);
      }
    }
  }

  lemma SettledPassKeepsFiles(s: State, e: Event)
    requires e.Pass? && FromIndex(e.entries) && Agree(s) && Settled(s, e) && ManifestsAreThere(s)
    ensures ManifestsAreThere(Next(s, e))
  {
    var t, prior := PassState(s, e.f, e.entries, e.stop, e.synced), Of(s.manifests, e.f);
    hide PassState;
    hide IsThere;
    hide PassManifest;
    hide DropboxAfter;
    hide NoDeltas;
    hide FromIndex;
    hide HonestUploads;
    hide Agree;
    PassKeepsAgreement(s, e.f, e.entries, e.stop, e.synced);
    DropboxOfPass(s, e.f, e.entries, e.stop, e.synced);
    OtherManifestsStay(s, e.f, e.entries, e.stop, e.synced);
    FilesOfSettledPass(Of(s.dropbox, e.f), prior, e.entries);
    if PassPuts(prior, e.entries) == [] {
      WithoutPutsNoUpload(Of(s.dropbox, e.f), prior, e.entries);
    }
    hide PassPuts;
    hide Of;
    forall g ensures IsThere(Of(t.manifests, g), Of(t.dropbox, g)) {
      assert IsThere(Of(s.manifests, g), Of(s.dropbox, g));
    }
  }

  lemma OtherManifestsStay(s: State, f: FolderID, entries: seq<Entry>, stop: Stop, synced: bool)
    ensures forall g :: g != f ==> Of(PassState(s, f, entries, stop, synced).manifests, g) == Of(s.manifests, g)
  {
    PassRecords(s, f, entries, stop, synced);
    hide PassState;
    hide PassManifest;
    hide NoDeltas;
  }

  lemma FilesOfSettledPass(files: Manifest, prior: Manifest, entries: seq<Entry>)
    requires FromIndex(entries) && HonestUploads(entries) && IsThere(prior, files)
    ensures IsThere(PassManifest(prior, entries), DropboxAfter(files, prior, entries))
  {
    forall n | n in PassManifest(prior, entries)
      ensures Holds(DropboxAfter(files, prior, entries), n, PassManifest(prior, entries)[n])
    {
      PassLeavesFilesThere(files, prior, entries, n);
    }
  }

  lemma {:induction false} WithoutPutsNoUpload(files: Manifest, prior: Manifest, entries: seq<Entry>)
    requires PassPuts(prior, entries) == []
    ensures DropboxAfter(files, prior, entries) == files
  {
    if entries != [] {
      WithoutPutsNoUpload(files, prior, entries[..|entries| - 1]);
    }
  }

  lemma OtherEventsKeepFiles(s: State, e: Event)
    requires !e.Pass? && Agree(s) && ManifestsAreThere(s)
    ensures ManifestsAreThere(Next(s, e))
  {
    var t := Next(s, e);
    forall g ensures IsThere(Of(t.manifests, g), Of(t.dropbox, g)) {
      assert Of(s.manifests, g) == Of(s.stored.manifests, g);
      assert IsThere(Of(s.manifests, g), Of(s.dropbox, g));
    }
  }

  /** As long as the backend learns of every upload, Dropbox has all that the manifests list. */
  lemma {:induction false} SettledRunsKeepFiles(events: seq<Event>)
    requires Regular(events) && AllSettled(events)
    ensures ManifestsAreThere(After(events))
  {
    if events != [] {
      var init, e := events[..|events| - 1], events[|events| - 1];
      assert e in events;
      SettledRunsKeepFiles(init);
      AlwaysAgree(init);
      hide Settled;
      hide ManifestsAreThere;
      if e.Pass? {
        SettledPassKeepsFiles(After(init), e);
      } else {
        OtherEventsKeepFiles(After(init), e);
      }
    }
  }

  /** So a pass without failures makes Dropbox equal to the index as well. */
  lemma SettledHistoryConverges(events: seq<Event>, f: FolderID, entries: seq<Entry>)
    requires Regular(events) && AllSettled(events) && FromIndex(entries) && UploadsSucceed(entries)
    ensures DropboxHas(PassState(After(events), f, entries, Complete, true), f, EligiblePart(entries))
  {
    SettledRunsKeepFiles(events);
    OnePassConverges(events, f, entries);
  }

  ghost function OneFile(n: Name, key: Key): seq<Entry> {
    [Entry(FileInfo(n, key, false, false, false, false), Some(key))]
  }

  lemma OneFilePass(prior: Manifest, n: Name, key: Key)
    requires !BackupSkipName(n) && key != ""
    ensures FromIndex(OneFile(n, key)) && UploadsSucceed(OneFile(n, key))
    ensures PassManifest(prior, OneFile(n, key)) == map[n := key]
    ensures EligiblePart(OneFile(n, key)) == map[n := key]
    ensures forall d :: DropboxAfter(d, prior, OneFile(n, key)) == if Lookup(prior, n) == key then d else d[n := key]
    ensures Lookup(prior, n) != key ==> !NoDeltas(prior, OneFile(n, key))
  {
    assert OneFile(n, key)[..0] == [];
  }

  /** The manifest lists one key of a file, and Dropbox has the bytes of another. */
  ghost predicate IsWrong(s: State, f: FolderID, n: Name, key1: Key, key2: Key) {
    Agree(s) && Of(s.manifests, f) == map[n := key1] && Holds(Of(s.dropbox, f), n, key2)
  }

  lemma PassLeavesItWrong(s: State, f: FolderID, n: Name, key1: Key, key2: Key, stop: Stop, synced: bool)
    requires IsWrong(s, f, n, key1, key2) && !BackupSkipName(n) && key1 != ""
    ensures IsWrong(PassState(s, f, OneFile(n, key1), stop, synced), f, n, key1, key2)
  {
    hide Agree;
    hide PassState;
    OneFilePass(map[n := key1], n, key1);
    PassKeepsAgreement(s, f, OneFile(n, key1), stop, synced);
    DropboxOfPass(s, f, OneFile(n, key1), stop, synced);
  }

  lemma RestartLeavesItWrong(s: State, f: FolderID, n: Name, key1: Key, key2: Key)
    requires IsWrong(s, f, n, key1, key2)
    ensures IsWrong(Next(s, Restart), f, n, key1, key2)
  {
    OtherEventsKeepAgreement(s, Restart);
    assert Of(s.manifests, f) == Of(s.stored.manifests, f);
    hide Agree;
  }

  /** The file has its first key whenever the folder is passed over, whatever becomes of the pass. */
  ghost predicate StaysAsItIs(later: seq<Event>, f: FolderID, n: Name, key: Key) {
    forall e :: e in later ==> e.Restart? || (e.Pass? && e.f == f && e.entries == OneFile(n, key))
  }

  lemma {:induction false} ItStaysWrong(events: seq<Event>, later: seq<Event>, f: FolderID, n: Name,
      key1: Key, key2: Key)
    requires IsWrong(After(events), f, n, key1, key2) && !BackupSkipName(n) && key1 != ""
    requires StaysAsItIs(later, f, n, key1)
    ensures IsWrong(After(events + later), f, n, key1, key2)
  {
    hide IsWrong;
    hide Next;
    if later == [] {
      assert events + later == events;
    } else {
      var e := later[|later| - 1];
      assert e in later && (events + later)[..|events + later| - 1] == events + later[..|later| - 1];
      ItStaysWrong(events, later[..|later| - 1], f, n, key1, key2);
      var s := After(events + later[..|later| - 1]);
      if e.Restart? {
        RestartLeavesItWrong(s, f, n, key1, key2);
      } else {
        PassLeavesItWrong(s, f, n, key1, key2, e.stop, e.synced);
        NextOfPass(s, e);
      }
    }
  }

  lemma NextOfPass(s: State, e: Event)
    requires e.Pass?
    ensures Next(s, e) == PassState(s, e.f, e.entries, e.stop, e.synced)
  {
    hide PassState;
  }

  ghost function Reverted(t: Target, n: Name, key1: Key, key2: Key): seq<Event> {
    [Enable(t), Pass(t.folderID, OneFile(n, key1), Complete, true), Pass(t.folderID, OneFile(n, key2), Complete, false)]
  }

  lemma RevertedFileIsWrong(t: Target, n: Name, key1: Key, key2: Key)
    requires !BackupSkipName(n) && key1 != "" && key2 != "" && key1 != key2
    ensures IsWrong(After(Reverted(t, n, key1, key2)), t.folderID, n, key1, key2)
  {
    var f := t.folderID;
    var events := Reverted(t, n, key1, key2);
    var one, two := [Enable(t)], [Enable(t), Pass(f, OneFile(n, key1), Complete, true)];
    assert events[..2] == two && two[..1] == one && one[..0] == [];
    hide PassState;
    hide PassManifest;
    hide DropboxAfter;
    OneFilePass(map[], n, key1);
    OneFilePass(map[n := key1], n, key2);
    assert Of(After(one).manifests, f) == map[];
    AlwaysAgree(one);
    hide Agree;
    PassKeepsAgreement(After(one), f, OneFile(n, key1), Complete, true);
    PassKeepsAgreement(After(two), f, OneFile(n, key2), Complete, false);
    DropboxOfPass(After(two), f, OneFile(n, key2), Complete, false);
  }

  /** A file changes, is uploaded, the sync fails, and the file changes back: later passes take it for
      unchanged, and however many of them there are, with or without failures and restarts, Dropbox keeps
      the other bytes while manifest, disk and backend are right. */
  lemma RevertedFileStaysWrong(t: Target, n: Name, key1: Key, key2: Key, later: seq<Event>)
    requires !BackupSkipName(n) && key1 != "" && key2 != "" && key1 != key2
    requires StaysAsItIs(later, t.folderID, n, key1)
    ensures var s, f := After(Reverted(t, n, key1, key2) + later), t.folderID;
            MirrorsIndex(s, f, map[n := key1]) && Holds(Of(s.dropbox, f), n, key2)
    ensures Regular(Reverted(t, n, key1, key2) + later)
  {
    hide After;
    OneFilePass(map[], n, key1);
    OneFilePass(map[], n, key2);
    RevertedFileIsWrong(t, n, key1, key2);
    ItStaysWrong(Reverted(t, n, key1, key2), later, t.folderID, n, key1, key2);
    hide OneFile;
    hide FromIndex;
  }
}
