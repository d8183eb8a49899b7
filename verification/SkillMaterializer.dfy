/**
 Publishing Workflow Skills step by step, as packages/agent-cli/src/workflow-materializer.ts does on a
 file system: stage every tree, swap each in with a backup, move stale ones aside, commit by renaming
 the manifest, and on an error replay the swaps backwards. Every file-system step may succeed, throw,
 or be the last thing the process does.
 */
module SkillMaterializer {
  import opened Common
  import opened ArchiveMatching
  import opened SkillPublication
  import opened Utf16

  datatype Attempt = Went | Failure(code: Code) | Death

  datatype Outcome = Succeeded(manifest: ManifestFile) | Failed(code: Code) | Crashed

  /** Anything but a materialization error is reported as a failed publication. */
  function Stopped(s: Fate): Attempt
    requires !s.Done?
  {
    if s.Died? then Death else Failure(PublishFailed)
  }

  // ---------------------------------------------------------------- the file system

  class Disk {
    /** The Workspace a readable version-1 marker names, for an absolute Workspace directory. */
    const workspace: Option<string>
    /** One of the directories written to is a link or not a directory. */
    const unsafeDirectory: bool

    var skills: Skills
    var aside: map<Backup, Content>
    var staged: map<string, Files>
    var manifest: ManifestFile
    var temporary: map<nat, ManifestFile>
    /** How many steps threw that a sound file system would have done. */
    var faults: nat
    /** The backups a look for which threw. */
    var missed: seq<Backup>
    /** How many renames took the place of a backup. */
    var replaced: nat

    constructor (view: View, workspace: Option<string>, unsafeDirectory: bool)
      ensures Visible() == view && this.workspace == workspace && this.unsafeDirectory == unsafeDirectory
      ensures faults == 0 && missed == [] && replaced == 0
    {
      this.workspace, this.unsafeDirectory := workspace, unsafeDirectory;
      skills, manifest := view.skills, view.manifest;
      aside, staged, temporary := map[], map[], map[];
      faults, missed, replaced := 0, [], 0;
    }

    function Visible(): View
      reads this
    {
      View(skills, manifest)
    }

    function Swaps(): Layout
      reads this
    {
      Layout(skills, aside)
    }

    /** What becomes of a step. */
    method NextFate() returns (s: Fate)
      modifies this`faults
      ensures faults == old(faults) + if s.Threw? then 1 else 0
    {
      s := AnyFate();
      if s.Threw? {
        faults := faults + 1;
      }
    }

    /** Recursive removal of the staging directory, which may stop half-way. */
    method ClearStaging() returns (s: Fate)
      modifies this`aside, this`staged, this`faults
      ensures s.Done? ==> aside == map[] && staged == map[]
      ensures faults == old(faults) + if s.Threw? then 1 else 0
    {
      s := NextFate();
      if s.Done? {
        aside, staged := map[], map[];
      } else {
        aside, staged := *, *;
      }
    }

    method MakeStaged(skillId: string) returns (s: Fate)
      modifies this`staged, this`faults
      ensures s.Done? ==> staged == if skillId in old(staged) then old(staged) else old(staged)[skillId := map[]]
      ensures !s.Done? ==> staged == old(staged)
      ensures faults == old(faults) + if s.Threw? then 1 else 0
    {
      s := NextFate();
      if s.Done? && skillId !in staged {
        staged := staged[skillId := map[]];
      }
    }

    /** Creates a file that must not exist, in a directory that is made first. */
    method WriteStaged(skillId: string, path: Text, file: File) returns (s: Fate)
      requires skillId in staged
      modifies this`staged, this`faults
      ensures s.Done? ==> !Clashes(path, old(staged)[skillId])
                          && staged == old(staged)[skillId := old(staged)[skillId][path := file]]
      ensures s.Threw? && faults == old(faults) ==> Clashes(path, old(staged)[skillId])
      ensures old(faults) <= faults <= old(faults) + if s.Threw? then 1 else 0
    {
      if Clashes(path, staged[skillId]) {
        return Threw;
      }
      s := NextFate();
      if s.Done? {
        staged := staged[skillId := staged[skillId][path := file]];
      } else {
        var torn: Files := *;
        staged := staged[skillId := torn];
      }
    }

    method ExistsSkill(path: string) returns (s: Fate, there: bool)
      modifies this`faults
      ensures s.Done? ==> there == (path in skills)
      ensures faults == old(faults) + if s.Threw? then 1 else 0
    {
      s := NextFate();
      there := path in skills;
    }

    method ExistsBackup(backup: Backup) returns (s: Fate, there: bool)
      modifies this`faults, this`missed
      ensures s.Done? ==> there == (backup in aside)
      ensures faults == old(faults) + if s.Threw? then 1 else 0
      ensures missed == old(missed) + if s.Threw? then [backup] else []
    {
      s := NextFate();
      if s.Threw? {
        missed := missed + [backup];
      }
      there := backup in aside;
    }

    /** Renames a Skill path away. Onto a taken name this may be refused or may replace it. */
    method MoveAside(path: string, backup: Backup) returns (s: Fate)
      modifies this`skills, this`aside, this`faults, this`replaced
      ensures s.Done? ==> path in old(skills) && Swaps() == Aside(old(Swaps()), path, backup)
      ensures !s.Done? ==> Swaps() == old(Swaps())
      ensures replaced == old(replaced) + if s.Done? && backup in old(aside) then 1 else 0
      ensures s.Threw? && faults == old(faults) ==> path !in skills || backup in aside
      ensures old(faults) <= faults <= old(faults) + if s.Threw? then 1 else 0
    {
      if path !in skills {
        return Threw;
      }
      if backup in aside {
        if * {
          return Threw;
        }
      }
      s := NextFate();
      if s.Done? {
        if backup in aside {
          replaced := replaced + 1;
        }
        skills, aside := skills - {path}, aside[backup := skills[path]];
      }
    }

    /** Renames a staged tree to its path. */
    method Install(skillId: string, path: string) returns (s: Fate)
      modifies this`skills, this`staged, this`faults
      ensures s.Done? ==> && skillId in old(staged) && staged == old(staged) - {skillId}
                          && skills == old(skills)[path := Tree(old(staged)[skillId])]
      ensures !s.Done? ==> skills == old(skills) && staged == old(staged)
      ensures s.Threw? && faults == old(faults) ==> skillId !in staged || path in skills
      ensures old(faults) <= faults <= old(faults) + if s.Threw? then 1 else 0
    {
      if skillId !in staged || path in skills {
        return Threw;
      }
      s := NextFate();
      if s.Done? {
        skills, staged := skills[path := Tree(staged[skillId])], staged - {skillId};
      }
    }

    /** Renames a backup to a path. */
    method PutBack(backup: Backup, path: string) returns (s: Fate)
      modifies this`skills, this`aside, this`faults
      ensures s.Done? ==> backup in old(aside) && Swaps() == Restored(old(Swaps()), backup, path)
      ensures !s.Done? ==> Swaps() == old(Swaps())
      ensures s.Threw? && faults == old(faults) ==> backup !in aside || path in skills
      ensures old(faults) <= faults <= old(faults) + if s.Threw? then 1 else 0
    {
      if backup !in aside || path in skills {
        return Threw;
      }
      s := NextFate();
      if s.Done? {
        skills, aside := skills[path := aside[backup]], aside - {backup};
      }
    }

    /** Recursive removal of a Skill path, which may stop half-way. */
    method RemoveSkill(path: string) returns (s: Fate)
      modifies this`skills, this`faults
      ensures s.Done? ==> skills == old(skills) - {path}
      ensures skills - {path} == old(skills) - {path}
      ensures faults == old(faults) + if s.Threw? then 1 else 0
    {
      s := NextFate();
      if s.Done? {
        skills := skills - {path};
      } else if path in skills {
        if * {
          skills := skills[path := Torn];
        }
      }
    }

    method RemoveBackup(backup: Backup) returns (s: Fate)
      modifies this`aside, this`faults
      ensures faults == old(faults) + if s.Threw? then 1 else 0
    {
      s := NextFate();
      if s.Done? {
        aside := aside - {backup};
      } else if backup in aside {
        aside := aside[backup := Torn];
      }
    }

    method WriteTemporary(generation: nat, written: ManifestFile) returns (s: Fate)
      modifies this`temporary, this`faults
      ensures s.Done? ==> temporary == old(temporary)[generation := written]
      ensures faults == old(faults) + if s.Threw? then 1 else 0
    {
      s := NextFate();
      temporary := temporary[generation := if s.Done? then written else Corrupt];
    }

    /** The commit point: even if the process dies here, the manifest is the old one or the new one. */
    method RenameManifest(generation: nat) returns (s: Fate)
      requires generation in temporary
      modifies this`manifest, this`temporary, this`faults
      ensures s.Done? ==> manifest == old(temporary)[generation]
      ensures s.Threw? ==> manifest == old(manifest)
      ensures manifest == old(manifest) || manifest == old(temporary)[generation]
      ensures faults == old(faults) + if s.Threw? then 1 else 0
    {
      s := NextFate();
      if s.Done? {
        manifest, temporary := temporary[generation], temporary - {generation};
      } else if s.Died? {
        if * {
          manifest, temporary := temporary[generation], temporary - {generation};
        }
      }
    }
  }

  // ---------------------------------------------------------------- staging

  /** The loop over the archive's entries. */
  method ListFiles(entries: seq<ZipEntry>, nfc: Normaliser) returns (r: Option<(seq<Text>, seq<File>)>)
    ensures r.Some? <==> forall i :: 0 <= i < |entries| ==> Acceptable(entries[i], nfc)
    ensures r.Some? ==> r.value == (FileNames(entries), FileContents(entries))
  {
    hide Acceptable, DirectoryName;
    var paths, files := [], [];
    for i := 0 to |entries|
      invariant paths == FileNames(entries[..i]) && files == FileContents(entries[..i])
      invariant forall j :: 0 <= j < i ==> Acceptable(entries[j], nfc)
    {
      assert entries[..i + 1][..i] == entries[..i];
      if !Acceptable(entries[i], nfc) {
        return None;
      }
      if !DirectoryName(entries[i].fileName) {
        paths, files := paths + [entries[i].fileName], files + [entries[i].file];
      }
    }
    assert entries[..|entries|] == entries;
    r := Some((paths, files));
  }

  /** Checks an archive against the manifest and writes its files into the Skill's staging directory. */
  method ExtractExactManifest(
      disk: Disk, zip: Option<seq<ZipEntry>>, skillId: string, manifest: seq<ManifestEntry>, nfc: Normaliser)
    returns (r: Attempt)
    modifies disk`staged, disk`faults
    ensures old(disk.faults) <= disk.faults
    ensures r.Went? ==> skillId in disk.staged
                        && Unpack(zip, manifest, nfc, StagedTree(old(disk.staged), skillId)) == Ok(disk.staged[skillId])
                        && disk.staged == old(disk.staged)[skillId := disk.staged[skillId]]
    ensures r.Failure? && disk.faults == old(disk.faults) ==>
              Unpack(zip, manifest, nfc, StagedTree(old(disk.staged), skillId)) == Err(r.code)
    ensures r.Failure? && disk.faults > old(disk.faults) ==> r.code == UnsafeArchive
  {
    hide Acceptable, FileNames, FileContents, ManifestFiles, MatchFiles, Examine;
    if zip.None? {
      return Failure(UnsafeArchive);
    }
    var listed := ListFiles(zip.value, nfc);
    if listed.None? {
      return Failure(UnsafeArchive);
    }
    var expected := ManifestFiles(manifest);
    var matched := MatchFiles(listed.value.0, expected.Keys);
    if matched.None? {
      return Failure(ManifestMismatch);
    }
    r := WriteMatched(disk, skillId, matched.value, listed.value.1, expected);
  }

  method WriteMatched(disk: Disk, skillId: string, paths: seq<Text>, files: seq<File>, expected: Files)
    returns (r: Attempt)
    requires |paths| == |files| && AllIn(paths, expected.Keys)
    modifies disk`staged, disk`faults
    ensures old(disk.faults) <= disk.faults
    ensures r.Went? ==> skillId in disk.staged
                        && Examine(paths, files, expected, 0, StagedTree(old(disk.staged), skillId))
                           == Ok(disk.staged[skillId])
                        && disk.staged == old(disk.staged)[skillId := disk.staged[skillId]]
    ensures r.Failure? && disk.faults == old(disk.faults) ==>
              Examine(paths, files, expected, 0, StagedTree(old(disk.staged), skillId)) == Err(r.code)
    ensures r.Failure? && disk.faults > old(disk.faults) ==> r.code == UnsafeArchive
  {
    hide Clashes, StartsWithDots, Examine;
    var s := disk.MakeStaged(skillId);
    if !s.Done? {
      return if s.Died? then Death else Failure(UnsafeArchive);
    }
    ghost var whole := Examine(paths, files, expected, 0, disk.staged[skillId]);
    var expanded: nat := 0;
    for i := 0 to |paths|
      invariant disk.faults == old(disk.faults)
      invariant skillId in disk.staged && disk.staged == old(disk.staged)[skillId := disk.staged[skillId]]
      invariant AllIn(paths[i..], expected.Keys)
      invariant Examine(paths[i..], files[i..], expected, expanded, disk.staged[skillId]) == whole
    {
      ExamineNext(paths, files, expected, expanded, disk.staged[skillId], i);
      if files[i] != expected[paths[i]] || expanded + files[i].size > MAX_EXPANDED_BYTES {
        return Failure(ManifestMismatch);
      }
      expanded := expanded + files[i].size;
      if StartsWithDots(paths[i]) {
        return Failure(UnsafeArchive);
      }
      s := disk.WriteStaged(skillId, paths[i], files[i]);
      if !s.Done? {
        return if s.Died? then Death else Failure(UnsafeArchive);
      }
    }
    ExamineEnd(expected, expanded, disk.staged[skillId]);
    r := Went;
  }

  lemma ExamineEnd(expected: Files, expanded: nat, written: Files)
    ensures Examine([], [], expected, expanded, written) == Ok(written)
  {
  }

  lemma ExamineNext(
      paths: seq<Text>, files: seq<File>, expected: Files, expanded: nat, written: Files, i: nat)
    requires i < |paths| == |files| && AllIn(paths[i..], expected.Keys)
    ensures paths[i] in expected && AllIn(paths[i + 1..], expected.Keys)
    ensures Examine(paths[i..], files[i..], expected, expanded, written)
         == if files[i] != expected[paths[i]] || expanded + files[i].size > MAX_EXPANDED_BYTES then
              Err(ManifestMismatch)
            else if StartsWithDots(paths[i]) || Clashes(paths[i], written) then Err(UnsafeArchive)
            else
              Examine(paths[i + 1..], files[i + 1..], expected, expanded + files[i].size, written[paths[i] := files[i]])
  {
    hide Clashes, StartsWithDots;
    assert paths[i..][0] == paths[i] && files[i..][0] == files[i];
    assert paths[i..][1..] == paths[i + 1..] && files[i..][1..] == files[i + 1..];
  }

  /** The trees staged for a list of entries, or the code of the first refusal. */
  function Stage(entries: seq<Entry>, download: Download, nfc: Normaliser, staged: map<string, Files>)
    : Result<map<string, Files>, Code>
    decreases |entries|
  {
    if entries == [] then Ok(staged)
    else
      var fetched := Fetch(entries[0], download(entries[0]), nfc, StagedTree(staged, entries[0].skillId));
      if fetched.Err? then Err(fetched.error)
      else Stage(entries[1..], download, nfc, staged[entries[0].skillId := fetched.value])
  }

  function Fetch(e: Entry, archive: Option<Archive>, nfc: Normaliser, written: Files): Result<Files, Code> {
    if archive.None? then Err(PublishFailed)
    else if archive.value.length > MAX_ARCHIVE_BYTES then Err(ArchiveTooLarge)
    else if archive.value.sha256 != e.zipSha256 then Err(ArchiveHashMismatch)
    else Unpack(archive.value.zip, e.manifest, nfc, written)
  }

  method StageAll(disk: Disk, entries: seq<Entry>, download: Download, nfc: Normaliser)
    returns (r: Attempt)
    modifies disk`staged, disk`faults
    ensures old(disk.faults) <= disk.faults
    ensures r.Went? ==> Stage(entries, download, nfc, old(disk.staged)) == Ok(disk.staged)
    ensures r.Failure? && disk.faults == old(disk.faults) ==>
              Stage(entries, download, nfc, old(disk.staged)) == Err(r.code)
  {
    hide Unpack;
    for i := 0 to |entries|
      invariant old(disk.faults) <= disk.faults
      invariant Stage(entries[i..], download, nfc, disk.staged) == Stage(entries, download, nfc, old(disk.staged))
    {
      var e := entries[i];
      assert entries[i..][1..] == entries[i + 1..];
      var archive := download(e);
      if archive.None? {
        return Failure(PublishFailed);
      }
      if archive.value.length > MAX_ARCHIVE_BYTES {
        return Failure(ArchiveTooLarge);
      }
      if archive.value.sha256 != e.zipSha256 {
        return Failure(ArchiveHashMismatch);
      }
      r := ExtractExactManifest(disk, archive.value.zip, e.skillId, e.manifest, nfc);
      if !r.Went? {
        return;
      }
    }
    r := Went;
  }

  /** The archive arrived, is at most 20 MiB long and has the digest of the entry's revision. */
  predicate Delivered(e: Entry, archive: Option<Archive>) {
    archive.Some? && archive.value.length <= 20_971_520 && archive.value.sha256 == e.zipSha256
  }

  /** The code for an archive that was not delivered. */
  function NotDelivered(archive: Option<Archive>): Code {
    if archive.None? then PublishFailed
    else if archive.value.length > 20_971_520 then ArchiveTooLarge
    else ArchiveHashMismatch
  }

  /** The archive is delivered, and by itself unpacks to its manifest. */
  predicate Accepted(e: Entry, archive: Option<Archive>, nfc: Normaliser) {
    Delivered(e, archive) && Unpack(archive.value.zip, e.manifest, nfc, map[]).Ok?
  }

  lemma FetchIsExact(e: Entry, archive: Option<Archive>, nfc: Normaliser, written: Files)
    ensures Fetch(e, archive, nfc, written)
         == if Delivered(e, archive) then Unpack(archive.value.zip, e.manifest, nfc, written)
            else Err(NotDelivered(archive))
  {
    hide Unpack;
  }

  lemma FetchedIsManifest(e: Entry, archive: Option<Archive>, nfc: Normaliser)
    requires e.manifest != []
    ensures Fetch(e, archive, nfc, map[]).Ok? <==> Accepted(e, archive, nfc)
    ensures Accepted(e, archive, nfc) ==> Fetch(e, archive, nfc, map[]).value == ManifestFiles(e.manifest)
  {
    hide Unpack, ManifestFiles;
    FetchIsExact(e, archive, nfc, map[]);
    if archive.Some? {
      UnpackIsExact(archive.value.zip, e.manifest, nfc);
    }
  }

  /**
   With distinct Skills, staging succeeds exactly when every archive is delivered and by itself unpacks
   to its manifest, and then each Skill's staged tree is exactly its manifest's.
   */
  lemma {:induction false} StagedTreesAreExact(
      entries: seq<Entry>, download: Download, nfc: Normaliser, staged: map<string, Files>)
    requires DistinctIds(entries)
    requires forall i :: 0 <= i < |entries| ==> entries[i].manifest != [] && entries[i].skillId !in staged
    ensures Stage(entries, download, nfc, staged).Ok?
       <==> forall i :: 0 <= i < |entries| ==> Accepted(entries[i], download(entries[i]), nfc)
    ensures Stage(entries, download, nfc, staged).Ok? ==>
              StagedFor(Stage(entries, download, nfc, staged).value, entries)
    ensures Stage(entries, download, nfc, staged).Ok? ==>
              forall id :: id in staged ==>
                && id in Stage(entries, download, nfc, staged).value
                && Stage(entries, download, nfc, staged).value[id] == staged[id]
    decreases |entries|
  {
    hide Fetch, ManifestFiles, Accepted;
    if entries != [] {
      var first, rest := entries[0], entries[1..];
      assert forall i :: 0 < i < |entries| ==> entries[i] == rest[i - 1];
      FetchedIsManifest(first, download(first), nfc);
      if Accepted(first, download(first), nfc) {
        StagedTreesAreExact(rest, download, nfc, staged[first.skillId := ManifestFiles(first.manifest)]);
      }
    }
  }

  /** The earlier entries have distinct Skills and accepted archives. */
  predicate AcceptedBefore(entries: seq<Entry>, download: Download, nfc: Normaliser, k: nat) {
    && k < |entries| && DistinctBelow(entries, k)
    && forall i :: 0 <= i < k ==> entries[i].manifest != [] && Accepted(entries[i], download(entries[i]), nfc)
  }

  /** The first archive that is not delivered decides the refusal. */
  lemma {:induction false} FirstUndelivered(
      entries: seq<Entry>, download: Download, nfc: Normaliser, staged: map<string, Files>, k: nat)
    requires AcceptedBefore(entries, download, nfc, k) && !Delivered(entries[k], download(entries[k]))
    requires forall i :: 0 <= i < k ==> entries[i].skillId !in staged
    ensures Stage(entries, download, nfc, staged) == Err(NotDelivered(download(entries[k])))
    decreases k
  {
    hide Fetch, ManifestFiles, Accepted, Delivered, NotDelivered;
    var first := entries[0];
    FetchIsExact(first, download(first), nfc, StagedTree(staged, first.skillId));
    if k > 0 {
      var rest := entries[1..];
      FetchedIsManifest(first, download(first), nfc);
      assert forall i :: 0 <= i < k - 1 ==> rest[i] == entries[i + 1];
      FirstUndelivered(rest, download, nfc, staged[first.skillId := ManifestFiles(first.manifest)], k - 1);
    }
  }

  // ---------------------------------------------------------------- swapping

  function Item(path: string, backup: Backup, l: Layout): (item: Published)
    ensures item.final == path
  {
    Published(path, if backup in l.aside then Some(backup) else None)
  }

  function SwapEntry(l: Layout, e: Entry, tree: Files): Layout {
    Swapped(l, e.relativePath, PreviousOf(e.skillId), Tree(tree))
  }

  /** What is left of a swap whose Skill is no longer staged, once its handler has run. */
  function AfterRepeat(l: Layout, e: Entry, replaced: bool): Layout {
    var backup := PreviousOf(e.skillId);
    if backup !in l.aside then l
    else if e.relativePath !in l.skills then Restored(l, backup, e.relativePath)
    else if replaced then Layout(l.skills, l.aside - {backup})
    else l
  }

  /** One swap, with its handler. */
  method SwapOne(disk: Disk, e: Entry) returns (r: Attempt, item: Published)
    modifies disk`skills, disk`aside, disk`staged, disk`faults, disk`missed, disk`replaced
    ensures old(disk.faults) <= disk.faults && old(disk.missed) <= disk.missed && old(disk.replaced) <= disk.replaced
    ensures disk.staged - {e.skillId} == old(disk.staged) - {e.skillId}
    ensures disk.skills - {e.relativePath} == old(disk.skills) - {e.relativePath}
    ensures disk.aside.Keys <= old(disk.aside).Keys + {PreviousOf(e.skillId)}
    ensures PreviousOf(e.skillId) !in old(disk.aside) ==> disk.replaced == old(disk.replaced)
    ensures r.Went? ==>
              && e.skillId in old(disk.staged) && disk.staged == old(disk.staged) - {e.skillId}
              && disk.missed == old(disk.missed) && disk.faults == old(disk.faults)
              && disk.Swaps() == SwapEntry(old(disk.Swaps()), e, old(disk.staged)[e.skillId])
              && item == Item(e.relativePath, PreviousOf(e.skillId), disk.Swaps())
    ensures r.Failure? ==> r.code == PublishFailed
    ensures r.Failure? && e.skillId !in old(disk.staged) && disk.faults == old(disk.faults) ==>
              disk.Swaps() == AfterRepeat(old(disk.Swaps()), e, disk.replaced > old(disk.replaced))
    ensures var clean := PreviousOf(e.skillId) !in old(disk.aside) && e.skillId in old(disk.staged);
            && (r.Failure? && clean ==> disk.faults > old(disk.faults))
            && (r.Failure? && clean && disk.faults == old(disk.faults) + 1 ==>
                  if disk.missed == old(disk.missed) then disk.Swaps() == old(disk.Swaps())
                  else
                    && disk.missed == old(disk.missed) + [PreviousOf(e.skillId)]
                    && disk.Swaps() == SwapEntry(old(disk.Swaps()), e, old(disk.staged)[e.skillId]))
  {
    var backup := PreviousOf(e.skillId);
    item := Published(e.relativePath, None);
    ghost var l := disk.Swaps();
    var s, there := disk.ExistsSkill(e.relativePath);
    if !s.Done? {
      return Stopped(s), item;
    }
    if there {
      s := disk.MoveAside(e.relativePath, backup);
      if !s.Done? {
        return Stopped(s), item;
      }
    }
    assert disk.Swaps() == if e.relativePath in l.skills then Aside(l, e.relativePath, backup) else l;
    s := disk.Install(e.skillId, e.relativePath);
    if s.Died? {
      return Death, item;
    }
    if s.Threw? {
      r := Handle(disk, l, e.relativePath, backup);
      return r, item;
    }
    s, there := disk.ExistsBackup(backup);
    if !s.Done? {
      return Stopped(s), item;
    }
    r, item := Went, Published(e.relativePath, if there then Some(backup) else None);
  }

  /** The handler of a failed swap: its own failure is ignored. */
  method Handle(disk: Disk, ghost start: Layout, path: string, backup: Backup) returns (r: Attempt)
    requires disk.Swaps() == if path in start.skills then Aside(start, path, backup) else start
    modifies disk`skills, disk`aside, disk`faults, disk`missed
    ensures old(disk.faults) <= disk.faults && old(disk.missed) <= disk.missed
    ensures disk.faults - old(disk.faults) >= |disk.missed| - |old(disk.missed)|
    ensures disk.skills - {path} == start.skills - {path}
    ensures disk.aside.Keys <= start.aside.Keys + {backup}
    ensures r == Death || r == Failure(PublishFailed)
    ensures r.Failure? && disk.faults == old(disk.faults) ==>
              && disk.missed == old(disk.missed)
              && disk.Swaps() == if backup in old(disk.aside) then Restored(old(disk.Swaps()), backup, path) else start
    ensures r.Failure? && backup !in start.aside && disk.faults == old(disk.faults) ==> disk.Swaps() == start
  {
    var s, there := disk.ExistsBackup(backup);
    if s.Done? && there {
      s := disk.PutBack(backup, path);
      if path in start.skills && backup !in start.aside {
        RemovalIsUndone(start, path, backup);
      }
    }
    r := if s.Died? then Death else Failure(PublishFailed);
  }

  function Finals(items: seq<Published>): set<string> {
    set i | 0 <= i < |items| :: items[i].final
  }

  lemma FinalsOfMore(items: seq<Published>, item: Published)
    ensures Finals(items + [item]) == Finals(items) + {item.final}
  {
    var more := items + [item];
    assert forall i :: 0 <= i < |items| ==> more[i] == items[i];
    forall path | path in Finals(items) + {item.final}
      ensures path in Finals(more)
    {
      if path == item.final {
        assert more[|items|].final == path;
      } else {
        var i :| 0 <= i < |items| && items[i].final == path;
        assert more[i].final == path;
      }
    }
  }

  /** The item of a swapped entry, and its backup: what the path held before the swap, if anything. */
  ghost predicate Recorded(
      before: Skills, entries: seq<Entry>, trees: map<string, Files>, l: Layout, items: seq<Published>, k: nat)
    requires k < |items| <= |entries|
  {
    var e, found := entries[k], Placed(before, entries[..k], trees);
    var backup := PreviousOf(e.skillId);
    && items[k] == Item(e.relativePath, backup, l)
    && (backup in l.aside <==> e.relativePath in found)
    && (backup in l.aside ==> l.aside[backup] == found[e.relativePath])
  }

  /** After the first swaps: their backups are aside, undoing them gives the start, their trees are in place. */
  ghost predicate Progress(
      start: Layout, entries: seq<Entry>, trees: map<string, Files>, l: Layout, items: seq<Published>)
  {
    && |items| <= |entries|
    && (forall k :: 0 <= k < |items| ==> Recorded(start.skills, entries, trees, l, items, k))
    && (forall b :: b in l.aside ==> exists k :: 0 <= k < |items| && b == PreviousOf(entries[k].skillId))
    && Undo(l, items) == start
    && l.skills == Placed(start.skills, entries[..|items|], trees)
  }

  lemma NextIsFresh(start: Layout, entries: seq<Entry>, trees: map<string, Files>, l: Layout, items: seq<Published>)
    requires Progress(start, entries, trees, l, items) && DistinctBelow(entries, |items| + 1)
    ensures PreviousOf(entries[|items|].skillId) !in l.aside
    ensures forall k :: 0 <= k < |items| ==> items[k].backup != Some(PreviousOf(entries[|items|].skillId))
  {
    hide Undo, Placed;
    forall k | 0 <= k < |items|
      ensures items[k].backup != Some(PreviousOf(entries[|items|].skillId))
    {
      assert Recorded(start.skills, entries, trees, l, items, k);
    }
  }

  lemma ProgressStep(start: Layout, entries: seq<Entry>, trees: map<string, Files>, l: Layout, items: seq<Published>)
    requires Progress(start, entries, trees, l, items) && DistinctBelow(entries, |items| + 1)
    ensures var e := entries[|items|];
            var after := SwapEntry(l, e, StagedTree(trees, e.skillId));
            Progress(start, entries, trees, after, items + [Item(e.relativePath, PreviousOf(e.skillId), after)])
  {
    hide Undo, Placed, Swapped, UndoOne, StagedTree, Recorded;
    var n := |items|;
    var e := entries[n];
    var backup, content := PreviousOf(e.skillId), Tree(StagedTree(trees, e.skillId));
    var after := Swapped(l, e.relativePath, backup, content);
    var more := items + [Item(e.relativePath, backup, after)];
    NextIsFresh(start, entries, trees, l, items);
    UndoLast(after, items, more[n]);
    SwapIsUndone(l, e.relativePath, backup, content);
    PlacedMore(start.skills, entries, trees, n);
    SwapPuts(l, e.relativePath, backup, content);
    forall k | 0 <= k < n
      ensures Recorded(start.skills, entries, trees, after, more, k)
    {
      RecordStays(start.skills, entries, trees, l, items, k, after, more);
    }
    NewRecord(start.skills, entries, trees, l, items, after, more);
  }

  lemma NewRecord(
      before: Skills, entries: seq<Entry>, trees: map<string, Files>, l: Layout, items: seq<Published>, after: Layout,
      more: seq<Published>)
    requires |items| < |entries| && l.skills == Placed(before, entries[..|items|], trees)
    requires var e, backup := entries[|items|], PreviousOf(entries[|items|].skillId);
             && backup !in l.aside && more == items + [Item(e.relativePath, backup, after)]
             && after.aside == if e.relativePath in l.skills then l.aside[backup := l.skills[e.relativePath]]
               else l.aside
    ensures Recorded(before, entries, trees, after, more, |items|)
  {
    hide Placed;
  }

  lemma RecordStays(
      before: Skills, entries: seq<Entry>, trees: map<string, Files>, l: Layout, items: seq<Published>, k: nat,
      after: Layout, more: seq<Published>)
    requires k < |items| < |entries| && Recorded(before, entries, trees, l, items, k)
    requires items < more && |more| == |items| + 1 && DistinctBelow(entries, |more|)
    requires forall b :: b != PreviousOf(entries[|items|].skillId) ==>
               (b in after.aside <==> b in l.aside) && (b in l.aside ==> after.aside[b] == l.aside[b])
    ensures Recorded(before, entries, trees, after, more, k)
  {
    hide Placed;
  }

  lemma SwapPuts(l: Layout, path: string, backup: Backup, content: Content)
    ensures Swapped(l, path, backup, content).skills == l.skills[path := content]
    ensures Swapped(l, path, backup, content).aside == if path in l.skills then l.aside[backup := l.skills[path]]
                else l.aside
  {
  }

  /** The paths after a rollback that does not know of entry n's swap: its tree stays, if its path is new. */
  function Unseen(before: Skills, entries: seq<Entry>, n: nat): Skills
    requires n < |entries|
  {
    if Follows(entries, n) then before
    else before[entries[n].relativePath := Tree(ManifestFiles(entries[n].manifest))]
  }

  lemma PublishedEarlier(
      start: Layout, entries: seq<Entry>, trees: map<string, Files>, l: Layout, items: seq<Published>, k: nat)
    requires Progress(start, entries, trees, l, items) && k <= |items| && k < |entries|
    ensures Publishes(items[..k], entries[k].relativePath) <==> Follows(entries, k)
  {
    hide Undo, Placed;
    forall m | 0 <= m < k
      ensures items[..k][m].final == entries[m].relativePath
    {
      assert Recorded(start.skills, entries, trees, l, items, m);
    }
  }

  lemma UnseenSwap(start: Layout, entries: seq<Entry>, trees: map<string, Files>, l: Layout, items: seq<Published>)
    requires Progress(start, entries, trees, l, items) && DistinctBelow(entries, |items| + 1)
    requires StagedTree(trees, entries[|items|].skillId) == ManifestFiles(entries[|items|].manifest)
    ensures var e := entries[|items|];
            Undo(SwapEntry(l, e, StagedTree(trees, e.skillId)), items).skills == Unseen(start.skills, entries, |items|)
  {
    hide Undo, Placed, ManifestFiles, Swapped, Publishes;
    var e := entries[|items|];
    NextIsFresh(start, entries, trees, l, items);
    PublishedEarlier(start, entries, trees, l, items, |items|);
    assert items[..|items|] == items;
    UnrecordedSwap(l, e.relativePath, PreviousOf(e.skillId), Tree(ManifestFiles(e.manifest)), items);
  }

  /**
   What undoing a run with one throwing step gives: the start, or, if that step was the look for a
   backup, what the rollback leaves of the swap it does not know of.
   */
  ghost predicate Rescued(before: Skills, entries: seq<Entry>, n: nat, looks: seq<Backup>, undone: Skills) {
    if looks == [] then undone == before
    else n < |entries| && looks == [PreviousOf(entries[n].skillId)] && undone == Unseen(before, entries, n)
  }

  /** A repeated Skill is refused, and the rollback leaves exactly this. */
  lemma RepeatLeaves(
      start: Layout, entries: seq<Entry>, trees: map<string, Files>, l: Layout, items: seq<Published>, i: nat,
      replaced: bool)
    requires Progress(start, entries, trees, l, items) && Repeats(entries, i, |items|)
    ensures Undo(AfterRepeat(l, entries[|items|], replaced), items).skills
         == Leftover(start.skills, entries, trees, i, |items|, replaced)
  {
    hide Undo, Placed, Publishes, Follows;
    var j := |items|;
    var backup, second := PreviousOf(entries[i].skillId), entries[j].relativePath;
    assert Recorded(start.skills, entries, trees, l, items, i);
    PlacedKeys(start.skills, entries, trees, j, second);
    assert second in l.skills <==> Occupied(start.skills, entries, j) by { OccupiedKeys(start.skills, entries, j); }
    if backup in l.aside {
      forall k | 0 <= k < j && k != i
        ensures items[k].backup != Some(backup)
      {
        assert Recorded(start.skills, entries, trees, l, items, k);
      }
      LostBackup(l, items, i, backup);
      PublishedEarlier(start, entries, trees, l, items, i);
      if second !in l.skills {
        PublishedEarlier(start, entries, trees, l, items, j);
        assert items[..j] == items;
        var without, moved := Layout(l.skills, l.aside - {backup}), Restored(l, backup, second);
        assert Alike(without, moved, items) by { SameAsideAlike(without, moved, items); }
        ExtraUndo(without, moved, second, l.aside[backup], items);
      }
    }
  }

  lemma OccupiedKeys(before: Skills, entries: seq<Entry>, j: nat)
    requires j < |entries|
    ensures Occupied(before, entries, j) <==>
              entries[j].relativePath in before
              || exists m :: 0 <= m < j && entries[m].relativePath == entries[j].relativePath
    ensures Occupied(before, entries, j) || !Follows(entries, j)
  {
  }

  /** Every entry's Skill has a staged tree. */
  predicate AllStaged(staged: map<string, Files>, entries: seq<Entry>) {
    forall i :: 0 <= i < |entries| ==> entries[i].skillId in staged
  }

  lemma StagedForStagesAll(staged: map<string, Files>, entries: seq<Entry>)
    ensures StagedFor(staged, entries) ==> AllStaged(staged, entries)
  {
  }

  method SwapAll(disk: Disk, entries: seq<Entry>) returns (r: Attempt, published: seq<Published>)
    requires disk.aside == map[]
    modifies disk`skills, disk`aside, disk`staged, disk`faults, disk`missed, disk`replaced
    ensures old(disk.faults) <= disk.faults && old(disk.missed) <= disk.missed && old(disk.replaced) <= disk.replaced
    ensures r.Failure? ==> r.code == PublishFailed
    ensures SameOutside(old(disk.skills), disk.skills, Desired(entries).Keys)
    ensures Finals(published) <= Desired(entries).Keys
    ensures forall b :: b in disk.aside ==> b.PreviousOf?
    ensures r.Went? ==>
              && DistinctIds(entries) && disk.missed == old(disk.missed)
              && Undo(disk.Swaps(), published) == old(disk.Swaps())
              && disk.skills == Placed(old(disk.skills), entries, old(disk.staged))
    ensures r.Failure? && AllStaged(old(disk.staged), entries) && DistinctIds(entries) ==>
              disk.faults > old(disk.faults)
    ensures r.Failure? && StagedFor(old(disk.staged), entries)
            && DistinctIds(entries) && disk.faults == old(disk.faults) + 1 ==>
              Rescued(old(disk.skills), entries, |published|, disk.missed[|old(disk.missed)|..],
                      Undo(disk.Swaps(), published).skills)
    ensures r.Failure? && AllStaged(old(disk.staged), entries) && disk.faults == old(disk.faults) ==>
              forall i, j :: Repeats(entries, i, j) ==>
                Undo(disk.Swaps(), published).skills
                == Leftover(old(disk.skills), entries, old(disk.staged), i, j, disk.replaced > old(disk.replaced))
  {
    hide Undo, Desired, ManifestFiles, Swapped, Progress, Finals, Placed, AfterRepeat, Leftover, Unseen;
    hide SwapEntry, Item, StagedFor, Repeats, SameOutside;
    published := [];
    ghost var start, trees := disk.Swaps(), disk.staged;
    NoProgress(start, entries, trees);
    StagedForStagesAll(trees, entries);
    SameOutsideSelf(start.skills, Desired(entries).Keys);
    for i := 0 to |entries|
      invariant disk.faults == old(disk.faults)
      invariant disk.missed == old(disk.missed) && disk.replaced == old(disk.replaced)
      invariant |published| == i && DistinctBelow(entries, i)
      invariant forall id :: id in disk.staged ==> id in trees && disk.staged[id] == trees[id]
      invariant forall id :: id in trees ==>
                  (id in disk.staged <==> forall k :: 0 <= k < i ==> entries[k].skillId != id)
      invariant Progress(start, entries, trees, disk.Swaps(), published)
      invariant SameOutside(start.skills, disk.skills, Desired(entries).Keys)
      invariant Finals(published) <= Desired(entries).Keys
      invariant forall b :: b in disk.aside ==> b.PreviousOf?
    {
      var e := entries[i];
      ghost var l := disk.Swaps();
      ghost var repeated := !DistinctBelow(entries, i + 1);
      if !repeated {
        NextSwap(start, entries, trees, l, published);
      }
      ProgressUndoes(start, entries, trees, l, published);
      EntryIsDesired(entries, i);
      var one, item := SwapOne(disk, e);
      SameOutsideStep(start.skills, l.skills, disk.skills, e.relativePath, Desired(entries).Keys);
      if !one.Went? {
        if repeated {
          RepeatLeavesAll(start, entries, trees, l, published, disk.replaced > old(disk.replaced));
        }
        return one, published;
      }
      FinalsOfMore(published, item);
      published := published + [item];
    }
    ProgressUndoes(start, entries, trees, disk.Swaps(), published);
    assert entries[..|entries|] == entries;
    r := Went;
  }

  lemma StagedAt(trees: map<string, Files>, entries: seq<Entry>, i: nat)
    requires StagedFor(trees, entries) && i < |entries|
    ensures StagedTree(trees, entries[i].skillId) == ManifestFiles(entries[i].manifest)
  {
  }

  lemma NextSwap(start: Layout, entries: seq<Entry>, trees: map<string, Files>, l: Layout, items: seq<Published>)
    requires Progress(start, entries, trees, l, items) && DistinctBelow(entries, |items| + 1)
    ensures PreviousOf(entries[|items|].skillId) !in l.aside
    ensures var e := entries[|items|];
            var after := SwapEntry(l, e, StagedTree(trees, e.skillId));
            && Progress(start, entries, trees, after, items + [Item(e.relativePath, PreviousOf(e.skillId), after)])
            && (StagedFor(trees, entries) ==> Undo(after, items).skills == Unseen(start.skills, entries, |items|))
  {
    hide Undo, Progress, SwapEntry, StagedFor, Unseen;
    NextIsFresh(start, entries, trees, l, items);
    ProgressStep(start, entries, trees, l, items);
    if StagedFor(trees, entries) {
      StagedAt(trees, entries, |items|);
      UnseenSwap(start, entries, trees, l, items);
    }
  }

  lemma RepeatLeavesAll(
      start: Layout, entries: seq<Entry>, trees: map<string, Files>, l: Layout, items: seq<Published>, replaced: bool)
    requires Progress(start, entries, trees, l, items) && |items| < |entries|
    requires DistinctBelow(entries, |items|) && !DistinctBelow(entries, |items| + 1)
    ensures forall i, j :: Repeats(entries, i, j) ==>
              Undo(AfterRepeat(l, entries[|items|], replaced), items).skills
              == Leftover(start.skills, entries, trees, i, j, replaced)
  {
    hide Undo, AfterRepeat, Leftover, Progress;
    var k :| 0 <= k < |items| && entries[k].skillId == entries[|items|].skillId;
    RepeatLeaves(start, entries, trees, l, items, k, replaced);
    forall i, j | Repeats(entries, i, j)
      ensures i == k && j == |items|
    {
      RepeatIsUnique(entries, i, j, k, |items|);
    }
  }

  lemma ProgressUndoes(start: Layout, entries: seq<Entry>, trees: map<string, Files>, l: Layout, items: seq<Published>)
    requires Progress(start, entries, trees, l, items)
    ensures Undo(l, items) == start && l.skills == Placed(start.skills, entries[..|items|], trees)
  {
  }

  lemma EntryIsDesired(entries: seq<Entry>, i: nat)
    requires i < |entries|
    ensures entries[i].relativePath in Desired(entries)
  {
    DesiredKeys(entries);
  }

  lemma SameOutsideStep(a: Skills, b: Skills, c: Skills, path: string, touched: set<string>)
    requires SameOutside(a, b, touched) && c - {path} == b - {path} && path in touched
    ensures SameOutside(a, c, touched)
  {
    assert b - touched == (b - {path}) - touched;
    assert c - touched == (c - {path}) - touched;
  }

  lemma NoProgress(start: Layout, entries: seq<Entry>, trees: map<string, Files>)
    requires start.aside == map[]
    ensures Progress(start, entries, trees, start, []) && Finals([]) == {}
  {
  }

  // ---------------------------------------------------------------- removing stale paths

  lemma SameOutsideMore(before: Skills, after: Skills, some: set<string>, more: set<string>)
    requires SameOutside(before, after, some) && some <= more
    ensures SameOutside(before, after, more)
  {
    assert before - more == (before - some) - more;
    assert after - more == (after - some) - more;
  }

  /** Moves one path aside, once. */
  method StageRemoval(disk: Disk, path: string, removed: set<string>, published: seq<Published>, ghost before: Skills)
    returns (r: Attempt, removed': set<string>, published': seq<Published>)
    requires disk.skills == before - removed
    requires forall p :: RemovedFrom(p) in disk.aside ==> p in removed
    modifies disk`skills, disk`aside, disk`faults, disk`replaced
    ensures old(disk.faults) <= disk.faults && disk.replaced == old(disk.replaced)
    ensures r.Failure? ==> r.code == PublishFailed && disk.faults > old(disk.faults)
    ensures r.Went? ==> disk.faults == old(disk.faults) && disk.skills == before - removed'
    ensures removed' == removed + {path} && SameOutside(before, disk.skills, removed')
    ensures forall p :: RemovedFrom(p) in disk.aside ==> p in removed'
    ensures Undo(disk.Swaps(), published') == Undo(old(disk.Swaps()), published)
    ensures Finals(published') <= Finals(published) + {path}
  {
    hide Undo, Finals, UndoOne;
    r, removed', published' := Went, removed + {path}, published;
    assert before - removed - removed' == before - removed';
    if path in removed {
      assert removed' == removed;
      return;
    }
    var s, there := disk.ExistsSkill(path);
    if !s.Done? {
      return Stopped(s), removed', published';
    }
    if !there {
      return;
    }
    var backup := RemovedFrom(path);
    ghost var l := disk.Swaps();
    s := disk.MoveAside(path, backup);
    if !s.Done? {
      return Stopped(s), removed', published';
    }
    assert disk.skills == before - removed';
    var item := Published(path, Some(backup));
    published' := published + [item];
    UndoLast(disk.Swaps(), published, item);
    RemovalIsUndone(l, path, backup);
    FinalsOfMore(published, item);
  }

  lemma StaleOfMore(records: seq<Record>, desired: set<string>, i: nat)
    requires i < |records|
    ensures StalePaths(records[..i + 1], desired)
         == StalePaths(records[..i], desired)
            + var path := records[i].relativePath; if path !in desired && IsSkillPath(path) then {path} else {}
  {
  }

  lemma RemovalOfMore(removals: seq<string>, desired: set<string>, i: nat)
    requires i < |removals|
    ensures RemovalPaths(removals[..i + 1], desired)
         == RemovalPaths(removals[..i], desired) + if removals[i] !in desired then {removals[i]} else {}
  {
  }

  /** The two loops over stale and listed paths. */
  method StageRemovals(
      disk: Disk, records: seq<Record>, removals: seq<string>, desired: set<string>, swapped: seq<Published>)
    returns (r: Attempt, published: seq<Published>)
    requires forall p :: RemovedFrom(p) !in disk.aside
    modifies disk`skills, disk`aside, disk`faults, disk`replaced
    ensures old(disk.faults) <= disk.faults && disk.replaced == old(disk.replaced)
    ensures r.Failure? ==> r.code == PublishFailed && disk.faults > old(disk.faults)
    ensures var all := StalePaths(records, desired) + RemovalPaths(removals, desired);
            && (r.Went? ==> disk.faults == old(disk.faults) && disk.skills == old(disk.skills) - all)
            && SameOutside(old(disk.skills), disk.skills, all)
            && Finals(published) <= Finals(swapped) + all
    ensures Undo(disk.Swaps(), published) == Undo(old(disk.Swaps()), swapped)
  {
    hide Undo, Finals, IsSkillPath, StalePaths, RemovalPaths, SameOutside;
    published := swapped;
    var removed := {};
    ghost var before := disk.skills;
    ghost var stale := StalePaths(records, desired);
    ghost var all := stale + RemovalPaths(removals, desired);
    assert before - {} == before;
    NothingStale(desired);
    for i := 0 to |records|
      invariant disk.faults == old(disk.faults) && disk.replaced == old(disk.replaced)
      invariant removed == StalePaths(records[..i], desired) && disk.skills == before - removed
      invariant forall p :: RemovedFrom(p) in disk.aside ==> p in removed
      invariant Undo(disk.Swaps(), published) == Undo(old(disk.Swaps()), swapped)
      invariant Finals(published) <= Finals(swapped) + all
    {
      var path := records[i].relativePath;
      StaleOfMore(records, desired, i);
      StaleBound(records, desired, i + 1);
      if path !in desired && IsSkillPath(path) {
        r, removed, published := StageRemoval(disk, path, removed, published, before);
        SameOutsideMore(before, disk.skills, removed, all);
        if !r.Went? {
          return;
        }
      }
    }
    assert records[..|records|] == records;
    for i := 0 to |removals|
      invariant disk.faults == old(disk.faults) && disk.replaced == old(disk.replaced)
      invariant removed == stale + RemovalPaths(removals[..i], desired) && disk.skills == before - removed
      invariant forall p :: RemovedFrom(p) in disk.aside ==> p in removed
      invariant Undo(disk.Swaps(), published) == Undo(old(disk.Swaps()), swapped)
      invariant Finals(published) <= Finals(swapped) + all
    {
      RemovalOfMore(removals, desired, i);
      RemovalBound(removals, desired, i + 1);
      if removals[i] !in desired {
        r, removed, published := StageRemoval(disk, removals[i], removed, published, before);
        SameOutsideMore(before, disk.skills, removed, all);
        if !r.Went? {
          return;
        }
      }
    }
    assert removals[..|removals|] == removals;
    SameOutsideAll(before, all);
    r := Went;
  }

  lemma NothingStale(desired: set<string>)
    ensures StalePaths([], desired) == {} && RemovalPaths([], desired) == {}
  {
  }

  lemma StaleBound(records: seq<Record>, desired: set<string>, i: nat)
    requires i <= |records|
    ensures StalePaths(records[..i], desired) <= StalePaths(records, desired)
  {
  }

  lemma RemovalBound(removals: seq<string>, desired: set<string>, i: nat)
    requires i <= |removals|
    ensures RemovalPaths(removals[..i], desired) <= RemovalPaths(removals, desired)
  {
  }

  lemma SameOutsideAll(before: Skills, all: set<string>)
    ensures SameOutside(before, before - all, all)
  {
  }

  // ---------------------------------------------------------------- commit and rollback

  method Commit(disk: Disk, generation: nat, written: ManifestFile) returns (r: Attempt)
    modifies disk`manifest, disk`temporary, disk`faults
    ensures old(disk.faults) <= disk.faults
    ensures r.Went? ==> disk.manifest == written && disk.faults == old(disk.faults)
    ensures r.Failure? ==>
              disk.manifest == old(disk.manifest) && r.code == PublishFailed && disk.faults > old(disk.faults)
    ensures disk.manifest == old(disk.manifest) || disk.manifest == written
  {
    var s := disk.WriteTemporary(generation, written);
    if !s.Done? {
      return Stopped(s);
    }
    s := disk.RenameManifest(generation);
    r := if s.Done? then Went else Stopped(s);
  }

  /** Clearing up after the commit. Its failures are ignored. */
  method Tidy(disk: Disk, published: seq<Published>) returns (died: bool)
    modifies disk`aside, disk`staged, disk`faults
    ensures old(disk.faults) <= disk.faults
    ensures !died && disk.faults == old(disk.faults) ==> disk.aside == map[] && disk.staged == map[]
  {
    for i := 0 to |published|
      invariant old(disk.faults) <= disk.faults
    {
      if published[i].backup.Some? {
        var s := disk.RemoveBackup(published[i].backup.value);
        if s.Died? {
          return true;
        }
      }
    }
    var s := disk.ClearStaging();
    died := s.Died?;
  }

  /** The rollback, from the last item to the first. Its failures are ignored. */
  method RollBack(disk: Disk, published: seq<Published>) returns (died: bool)
    modifies disk`skills, disk`aside, disk`staged, disk`faults
    ensures old(disk.faults) <= disk.faults
    ensures !died && disk.faults == old(disk.faults) ==>
              && disk.skills == Undo(old(disk.Swaps()), published).skills
              && disk.aside == map[] && disk.staged == map[]
    ensures SameOutside(old(disk.skills), disk.skills, Finals(published))
  {
    hide Undo, Finals, SameOutside;
    ghost var before, faults, goal := disk.skills, disk.faults, Undo(disk.Swaps(), published);
    SameOutsideSelf(before, Finals(published));
    var n := |published|;
    assert published[..n] == published;
    while n > 0
      invariant 0 <= n <= |published| && faults <= disk.faults
      invariant disk.faults == faults ==> Undo(disk.Swaps(), published[..n]) == goal
      invariant SameOutside(before, disk.skills, Finals(published))
    {
      n := n - 1;
      var item := published[n];
      assert published[..n + 1] == published[..n] + [item];
      ghost var l := disk.Swaps();
      UndoLast(l, published[..n], item);
      FinalInFinals(published, n);
      var s := disk.RemoveSkill(item.final);
      SameOutsideStep(before, l.skills, disk.skills, item.final, Finals(published));
      if s.Died? {
        return true;
      }
      if item.backup.Some? {
        ghost var cleared := disk.skills;
        s := disk.PutBack(item.backup.value, item.final);
        SameOutsideStep(before, cleared, disk.skills, item.final, Finals(published));
        if s.Died? {
          return true;
        }
      }
      assert disk.faults == faults ==> disk.Swaps() == UndoOne(l, item);
    }
    UndoNothing(disk.Swaps());
    assert published[..0] == [];
    var s := disk.ClearStaging();
    died := s.Died?;
  }

  lemma UndoNothing(l: Layout)
    ensures Undo(l, []) == l
  {
  }

  lemma SameOutsideSelf(before: Skills, touched: set<string>)
    ensures SameOutside(before, before, touched)
  {
  }

  lemma FinalInFinals(items: seq<Published>, i: nat)
    requires i < |items|
    ensures items[i].final in Finals(items)
  {
  }

  // ---------------------------------------------------------------- a whole run

  /** The outcome of the guarded part when no step throws: the first refusal, or a Skill assigned twice. */
  function Refusal(a: Assignment, download: Download, nfc: Normaliser): Option<Code> {
    var staged := Stage(a.entries, download, nfc, map[]);
    if staged.Err? then Some(staged.error)
    else if !DistinctIds(a.entries) then Some(PublishFailed)
    else None
  }

  /** The guarded part of a run, up to the commit and the clearing up. */
  method Publish(disk: Disk, a: Assignment, previous: seq<Record>, download: Download, nfc: Normaliser)
    returns (r: Attempt, published: seq<Published>)
    requires SchemaValid(a, nfc)
    requires disk.aside == map[] && disk.staged == map[] && previous == Previous(disk.manifest, a.workspaceId)
    modifies disk
    ensures old(disk.faults) <= disk.faults && old(disk.missed) <= disk.missed && old(disk.replaced) <= disk.replaced
    ensures r.Went? ==> disk.Visible() == Committed(old(disk.Visible()), a) && Refusal(a, download, nfc).None?
    ensures r.Went? && disk.faults == old(disk.faults) ==> disk.aside == map[] && disk.staged == map[]
    ensures r.Failure? ==> Disturbed(old(disk.Visible()), a, disk.Visible())
    ensures r.Death? ==> || Disturbed(old(disk.Visible()), a, disk.Visible())
                         || disk.Visible() == Committed(old(disk.Visible()), a)
    ensures r.Failure? ==>
              && disk.manifest == old(disk.manifest)
              && Finals(published) <= Touched(old(disk.manifest), a)
              && (disk.faults == old(disk.faults) ==> Refusal(a, download, nfc) == Some(r.code))
              && (DistinctIds(a.entries) && disk.faults <= old(disk.faults) + 1 ==>
                    Rescued(old(disk.skills), a.entries, |published|, disk.missed[|old(disk.missed)|..],
                            Undo(disk.Swaps(), published).skills))
    ensures r.Failure? && disk.faults == old(disk.faults) ==>
              match Stage(a.entries, download, nfc, map[])
              case Err(_) => published == [] && disk.skills == old(disk.skills)
              case Ok(trees) => forall i, j :: Repeats(a.entries, i, j) ==>
                Undo(disk.Swaps(), published).skills
                == Leftover(old(disk.skills), a.entries, trees, i, j, disk.replaced > old(disk.replaced))
  {
    hide Undo, Desired, ManifestFiles, Finals, Previous, StalePaths, RemovalPaths, SameOutside, Unseen;
    hide EntryValid, Unpack, Records, Placed, Leftover, Stage, StagedFor, AllStaged;
    ghost var v := disk.Visible();
    ghost var desired, obsolete := Desired(a.entries).Keys, Obsolete(disk.manifest, a);
    published := [];
    UndoNothing(disk.Swaps());
    NoFinals();
    SameOutsideSelf(v.skills, Touched(v.manifest, a));
    r := StageAll(disk, a.entries, download, nfc);
    if !r.Went? {
      return;
    }
    StageStagesAll(a.entries, download, nfc, map[]);
    if DistinctIds(a.entries) {
      StagedForAll(a, download, nfc);
      PlacedIsDesired(disk.skills, a.entries, disk.staged);
    }
    r, published := SwapAll(disk, a.entries);
    SameOutsideMore(v.skills, disk.skills, desired, Touched(v.manifest, a));
    if !r.Went? {
      return;
    }
    ghost var swapped := disk.skills;
    r, published := StageRemovals(disk, previous, a.removals, Desired(a.entries).Keys, published);
    SameOutsideChain(v.skills, swapped, disk.skills, desired, obsolete);
    if r.Went? {
      ExactlyCommitted(v, a);
      r := Commit(disk, a.generation, NewManifest(a));
      if r.Went? {
        var died := Tidy(disk, published);
        if died {
          r := Death;
        }
      }
    }
  }

  lemma SameOutsideChain(a: Skills, b: Skills, c: Skills, first: set<string>, second: set<string>)
    requires SameOutside(a, b, first) && SameOutside(b, c, second)
    ensures SameOutside(a, c, first + second)
  {
    SameOutsideMore(a, b, first, first + second);
    SameOutsideMore(b, c, second, first + second);
  }

  /** Removing what is obsolete after the swaps gives what removing it before them would. */
  lemma ExactlyCommitted(v: View, a: Assignment)
    ensures Committed(v, a) == View(v.skills + Desired(a.entries) - Obsolete(v.manifest, a), NewManifest(a))
  {
  }

  lemma NoFinals()
    ensures Finals([]) == {}
  {
  }

  lemma {:induction false} StageStagesAll(
      entries: seq<Entry>, download: Download, nfc: Normaliser, staged: map<string, Files>)
    ensures Stage(entries, download, nfc, staged).Ok? ==>
              && AllStaged(Stage(entries, download, nfc, staged).value, entries)
              && staged.Keys <= Stage(entries, download, nfc, staged).value.Keys
    decreases |entries|
  {
    hide Fetch;
    if entries != [] {
      var e := entries[0];
      var fetched := Fetch(e, download(e), nfc, StagedTree(staged, e.skillId));
      if fetched.Ok? {
        StageStagesAll(entries[1..], download, nfc, staged[e.skillId := fetched.value]);
        assert forall i :: 0 < i < |entries| ==> entries[i] == entries[1..][i - 1];
      }
    }
  }

  lemma StagedForAll(a: Assignment, download: Download, nfc: Normaliser)
    requires SchemaValid(a, nfc) && DistinctIds(a.entries)
    ensures Stage(a.entries, download, nfc, map[]).Ok? ==>
              StagedFor(Stage(a.entries, download, nfc, map[]).value, a.entries)
  {
    hide Stage, Fetch, StagedFor, LogicalPath;
    assert forall i :: 0 <= i < |a.entries| ==> EntryValid(a.entries[i], nfc);
    StagedTreesAreExact(a.entries, download, nfc, map[]);
  }

  /** What the schema asks for, with its numbers. */
  predicate MeetsSchema(a: Assignment, nfc: Normaliser) {
    && 1 <= a.generation && |a.entries| <= 16 && |a.removals| <= 16
    && (forall i :: 0 <= i < |a.removals| ==> IsSkillPath(a.removals[i]))
    && forall i :: 0 <= i < |a.entries| ==>
         var e := a.entries[i];
         && IsSkillPath(e.relativePath) && 1 <= |e.manifest| <= 1_000
         && forall j :: 0 <= j < |e.manifest| ==>
              var path := e.manifest[j].path;
              && 1 <= |path| <= 1_024 && 0x5C !in path && 0 !in path && nfc(path) == path && !Traverses(path)
              && e.manifest[j].sizeBytes <= 20_971_520
  }

  /** The Workspace is the assignment's, its directories are safe and its manifest can be read. */
  predicate Admissible(
      workspace: Option<string>, unsafeDirectory: bool, m: ManifestFile, a: Assignment, nfc: Normaliser)
  {
    MeetsSchema(a, nfc) && workspace == Some(a.workspaceId) && !unsafeDirectory && m != Corrupt
  }

  /** The objections and their order, by the inputs. */
  lemma ObjectionIsExact(
      workspace: Option<string>, unsafeDirectory: bool, m: ManifestFile, a: Assignment, nfc: Normaliser)
    ensures Objection(workspace, unsafeDirectory, m, a, nfc).None? <==>
              Admissible(workspace, unsafeDirectory, m, a, nfc)
    ensures !MeetsSchema(a, nfc) ==> Objection(workspace, unsafeDirectory, m, a, nfc) == Some(SystemError)
    ensures MeetsSchema(a, nfc) && workspace != Some(a.workspaceId) ==>
              Objection(workspace, unsafeDirectory, m, a, nfc) == Some(WorkspaceMarkerMismatch)
    ensures MeetsSchema(a, nfc) && workspace == Some(a.workspaceId) && unsafeDirectory ==>
              Objection(workspace, unsafeDirectory, m, a, nfc) == Some(UnsafeArchive)
    ensures MeetsSchema(a, nfc) && workspace == Some(a.workspaceId) && !unsafeDirectory && m == Corrupt ==>
              Objection(workspace, unsafeDirectory, m, a, nfc) == Some(PublishFailed)
  {
    hide IsSkillPath, Traverses;
  }

  /** What a success vouches for. */
  predicate Vetted(
      workspace: Option<string>, unsafeDirectory: bool, m: ManifestFile, a: Assignment, download: Download,
      nfc: Normaliser)
  {
    && Admissible(workspace, unsafeDirectory, m, a, nfc) && DistinctIds(a.entries)
    && forall i :: 0 <= i < |a.entries| ==> Accepted(a.entries[i], download(a.entries[i]), nfc)
  }

  lemma SuccessIsVetted(
      workspace: Option<string>, unsafeDirectory: bool, m: ManifestFile, a: Assignment, download: Download,
      nfc: Normaliser)
    ensures Objection(workspace, unsafeDirectory, m, a, nfc).None? && Refusal(a, download, nfc).None?
       <==> Vetted(workspace, unsafeDirectory, m, a, download, nfc)
  {
    hide Accepted, Stage, IsSkillPath, Traverses;
    ObjectionIsExact(workspace, unsafeDirectory, m, a, nfc);
    if DistinctIds(a.entries) && MeetsSchema(a, nfc) {
      StagedTreesAreExact(a.entries, download, nfc, map[]);
    }
  }

  /**
   An outcome agrees with the first archive that is not delivered: its code is reported and nothing has
   changed.
   */
  ghost predicate RefusesUndelivered(
      a: Assignment, download: Download, nfc: Normaliser, v: View, outcome: Outcome, w: View)
  {
    forall k: nat :: AcceptedBefore(a.entries, download, nfc, k) && !Delivered(a.entries[k], download(a.entries[k])) ==>
      outcome == Failed(NotDelivered(download(a.entries[k]))) && w == v
  }

  lemma UndeliveredIsRefused(
      workspace: Option<string>, unsafeDirectory: bool, m: ManifestFile, a: Assignment, download: Download,
      nfc: Normaliser, v: View, outcome: Outcome, replaced: bool, w: View)
    requires outcome == Verdict(workspace, unsafeDirectory, m, a, download, nfc)
    requires outcome.Failed? ==>
               AfterRefusal(v, Objection(workspace, unsafeDirectory, m, a, nfc).Some?, a.entries,
                            Stage(a.entries, download, nfc, map[]), replaced, w)
    ensures Admissible(workspace, unsafeDirectory, m, a, nfc) ==> RefusesUndelivered(a, download, nfc, v, outcome, w)
  {
    hide Accepted, Delivered, Stage, Objection, Admissible, Leftover, Occupied;
    ObjectionIsExact(workspace, unsafeDirectory, m, a, nfc);
    if Admissible(workspace, unsafeDirectory, m, a, nfc) {
      forall k: nat | AcceptedBefore(a.entries, download, nfc, k) && !Delivered(a.entries[k], download(a.entries[k]))
        ensures outcome == Failed(NotDelivered(download(a.entries[k]))) && w == v
      {
        FirstUndelivered(a.entries, download, nfc, map[], k);
      }
    }
  }

  /** The refusals before the guarded part, in order. */
  function Objection(
      workspace: Option<string>, unsafeDirectory: bool, m: ManifestFile, a: Assignment, nfc: Normaliser): Option<Code>
  {
    if !SchemaValid(a, nfc) then Some(SystemError)
    else if workspace != Some(a.workspaceId) then Some(WorkspaceMarkerMismatch)
    else if unsafeDirectory then Some(UnsafeArchive)
    else if m.Corrupt? then Some(PublishFailed)
    else None
  }

  /** The outcome of a run in which no step throws and the process survives. */
  function Verdict(
      workspace: Option<string>, unsafeDirectory: bool, m: ManifestFile, a: Assignment, download: Download,
      nfc: Normaliser): Outcome
  {
    var objection := Objection(workspace, unsafeDirectory, m, a, nfc);
    if objection.Some? then Failed(objection.value)
    else if Refusal(a, download, nfc).Some? then Failed(Refusal(a, download, nfc).value)
    else Succeeded(NewManifest(a))
  }

  /**
   What a refused run leaves when no step throws: everything as it was, except that after a repeated
   Skill the paths are the leftover, which are the old ones exactly when not (the first path is taken
   and the second is free), as long as no backup was replaced.
   */
  ghost predicate AfterRefusal(
      v: View, objected: bool, entries: seq<Entry>, staging: Result<map<string, Files>, Code>, replaced: bool, w: View)
  {
    && w.manifest == v.manifest
    && (objected || staging.Err? ==> w == v)
    && (!objected && staging.Ok? ==> forall i, j :: Repeats(entries, i, j) ==>
          && w.skills == Leftover(v.skills, entries, staging.value, i, j, replaced)
          && (!replaced ==> (w == v <==> !(Occupied(v.skills, entries, i) && !Occupied(v.skills, entries, j)))))
  }

  /** The checks and preparations before the guarded part; None means go ahead. */
  method Prepare(disk: Disk, a: Assignment, nfc: Normaliser) returns (stop: Option<Outcome>)
    modifies disk`aside, disk`staged, disk`faults
    ensures old(disk.faults) <= disk.faults
    ensures var objection := Objection(disk.workspace, disk.unsafeDirectory, disk.manifest, a, nfc);
            && (stop.None? ==>
                  && objection.None? && SchemaValid(a, nfc)
                  && disk.faults == old(disk.faults) && disk.aside == map[] && disk.staged == map[])
            && (stop.Some? ==> stop.value.Crashed? || stop.value.Failed?)
            && (stop.Some? && stop.value.Failed? && disk.faults == old(disk.faults) ==>
                objection == Some(stop.value.code))
  {
    hide SchemaValid;
    if !SchemaValid(a, nfc) {
      return Some(Failed(SystemError));
    }
    if disk.workspace != Some(a.workspaceId) {
      return Some(Failed(WorkspaceMarkerMismatch));
    }
    if disk.unsafeDirectory {
      return Some(Failed(UnsafeArchive));
    }
    var s := disk.NextFate();
    if s.Done? {
      s := disk.ClearStaging();
    }
    if s.Done? {
      s := disk.NextFate();
    }
    if !s.Done? {
      return Some(if s.Died? then Crashed else Failed(SystemError));
    }
    s := disk.NextFate();
    if s.Died? {
      return Some(Crashed);
    }
    if s.Threw? || disk.manifest.Corrupt? {
      return Some(Failed(PublishFailed));
    }
    stop := None;
  }

  /**
   A run. If it succeeds, exactly the assignment is committed; otherwise only paths the assignment
   touches may differ and the manifest is the old one, unless the process died after the commit. When
   distinct Skills are assigned and one step throws, nothing has changed, unless that step was the look
   for the backup of a swap. When no step throws, the outcome is determined by the inputs, the staging
   directory is gone, and if one Skill is assigned twice the paths are exactly those `Leftover` gives.
   */
  method MaterializeWorkflowSkills(disk: Disk, a: Assignment, download: Download, nfc: Normaliser)
    returns (outcome: Outcome)
    modifies disk
    ensures old(disk.faults) <= disk.faults && old(disk.missed) <= disk.missed && old(disk.replaced) <= disk.replaced
    ensures outcome.Succeeded? ==>
              disk.Visible() == Committed(old(disk.Visible()), a) && outcome.manifest == NewManifest(a)
    ensures outcome.Succeeded? ==>
              Vetted(disk.workspace, disk.unsafeDirectory, old(disk.manifest), a, download, nfc)
    ensures disk.faults == old(disk.faults) && !outcome.Crashed?
            && Admissible(disk.workspace, disk.unsafeDirectory, old(disk.manifest), a, nfc) ==>
              RefusesUndelivered(a, download, nfc, old(disk.Visible()), outcome, disk.Visible())
    ensures outcome.Failed? ==> Disturbed(old(disk.Visible()), a, disk.Visible())
    ensures Leaves(old(disk.Visible()), a, disk.Visible())
    ensures outcome.Failed? && DistinctIds(a.entries) && disk.faults <= old(disk.faults) + 1 ==>
              && disk.manifest == old(disk.manifest)
              && exists n :: Rescued(old(disk.skills), a.entries, n, disk.missed[|old(disk.missed)|..], disk.skills)
    ensures outcome.Failed? && DistinctIds(a.entries)
            && disk.faults <= old(disk.faults) + 1 && disk.missed == old(disk.missed) ==>
              disk.Visible() == old(disk.Visible())
    ensures outcome.Failed? && disk.faults == old(disk.faults) ==>
              var objection := Objection(disk.workspace, disk.unsafeDirectory, old(disk.manifest), a, nfc);
              AfterRefusal(old(disk.Visible()), objection.Some?, a.entries, Stage(a.entries, download, nfc, map[]),
                           disk.replaced > old(disk.replaced), disk.Visible())
    ensures disk.faults == old(disk.faults) && !outcome.Crashed? ==>
              outcome == Verdict(disk.workspace, disk.unsafeDirectory, old(disk.manifest), a, download, nfc)
    ensures disk.faults == old(disk.faults) && !outcome.Crashed?
            && Objection(disk.workspace, disk.unsafeDirectory, old(disk.manifest), a, nfc).None? ==>
              disk.aside == map[] && disk.staged == map[]
  {
    hide Undo, Desired, Finals, Obsolete, SameOutside, Records, SchemaValid, Stage, Unseen, Leftover, AfterRefusal;
    hide Vetted, Admissible, RefusesUndelivered, Accepted, Objection, Refusal;
    ghost var v, m := disk.Visible(), disk.manifest;
    SameOutsideSelf(v.skills, Touched(v.manifest, a));
    SuccessIsVetted(disk.workspace, disk.unsafeDirectory, m, a, download, nfc);
    var stop := Prepare(disk, a, nfc);
    if stop.Some? {
      outcome := stop.value;
      NothingMissed(v.skills, a.entries, disk.missed[|old(disk.missed)|..]);
      RefusedUnchanged(v, a.entries, Stage(a.entries, download, nfc, map[]), disk.replaced > old(disk.replaced));
    } else {
      outcome := Attempted(disk, a, download, nfc);
    }
    if disk.faults == old(disk.faults) && !outcome.Crashed? {
      UndeliveredIsRefused(disk.workspace, disk.unsafeDirectory, m, a, download, nfc, v, outcome,
                           disk.replaced > old(disk.replaced), disk.Visible());
    }
  }

  lemma NothingMissed(before: Skills, entries: seq<Entry>, looks: seq<Backup>)
    requires looks == []
    ensures exists n :: Rescued(before, entries, n, looks, before)
  {
    assert Rescued(before, entries, 0, looks, before);
  }

  /** The run once the checks have passed, with its rollback. */
  method Attempted(disk: Disk, a: Assignment, download: Download, nfc: Normaliser) returns (outcome: Outcome)
    requires SchemaValid(a, nfc) && disk.aside == map[] && disk.staged == map[]
    modifies disk
    ensures old(disk.faults) <= disk.faults && old(disk.missed) <= disk.missed && old(disk.replaced) <= disk.replaced
    ensures outcome.Succeeded? ==>
              && disk.Visible() == Committed(old(disk.Visible()), a) && outcome.manifest == NewManifest(a)
              && Refusal(a, download, nfc).None?
    ensures outcome.Failed? ==> Disturbed(old(disk.Visible()), a, disk.Visible())
    ensures Leaves(old(disk.Visible()), a, disk.Visible())
    ensures outcome.Failed? && DistinctIds(a.entries) && disk.faults <= old(disk.faults) + 1 ==>
              exists n :: Rescued(old(disk.skills), a.entries, n, disk.missed[|old(disk.missed)|..], disk.skills)
    ensures outcome.Failed? && disk.faults == old(disk.faults) ==>
              && Refusal(a, download, nfc) == Some(outcome.code)
              && AfterRefusal(old(disk.Visible()), false, a.entries, Stage(a.entries, download, nfc, map[]),
                              disk.replaced > old(disk.replaced), disk.Visible())
    ensures disk.faults == old(disk.faults) && !outcome.Crashed? ==> disk.aside == map[] && disk.staged == map[]
  {
    hide Undo, Desired, Finals, Obsolete, SameOutside, Records, SchemaValid, Stage, Unseen, Leftover, AfterRefusal;
    ghost var v := disk.Visible();
    SameOutsideSelf(v.skills, Touched(v.manifest, a));
    var previous := Previous(disk.manifest, a.workspaceId);
    var r, published := Publish(disk, a, previous, download, nfc);
    match r
    case Went =>
      outcome := Succeeded(NewManifest(a));
    case Death =>
      outcome := Crashed;
    case Failure(code) =>
      ghost var l, w := disk.Swaps(), disk.skills;
      ghost var looks := disk.missed[|old(disk.missed)|..];
      var died := RollBack(disk, published);
      if published == [] {
        NoFinals();
        SameOutsideNothing(w, disk.skills);
        UndoNothing(l);
      }
      if DistinctIds(a.entries) && !died && disk.faults <= old(disk.faults) + 1 {
        assert Rescued(v.skills, a.entries, |published|, looks, disk.skills);
      }
      SameOutsideMore(w, disk.skills, Finals(published), Touched(v.manifest, a));
      SameOutsideTwice(v.skills, w, disk.skills, Touched(v.manifest, a));
      if !died && disk.faults == old(disk.faults) {
        ghost var staging := Stage(a.entries, download, nfc, map[]);
        RefusedLeaves(v, a.entries, staging, disk.replaced > old(disk.replaced), disk.Visible());
      }
      outcome := if died then Crashed else Failed(code);
  }

  lemma RefusedUnchanged(v: View, entries: seq<Entry>, staging: Result<map<string, Files>, Code>, replaced: bool)
    ensures AfterRefusal(v, true, entries, staging, replaced, v)
  {
  }

  lemma RefusedLeaves(v: View, entries: seq<Entry>, staging: Result<map<string, Files>, Code>, replaced: bool, w: View)
    requires w.manifest == v.manifest && (staging.Err? ==> w == v)
    requires staging.Ok? ==> forall i, j :: Repeats(entries, i, j) ==>
               w.skills == Leftover(v.skills, entries, staging.value, i, j, replaced)
    ensures AfterRefusal(v, false, entries, staging, replaced, w)
  {
    hide Leftover, Occupied;
    if staging.Ok? {
      forall i, j | Repeats(entries, i, j)
        ensures !replaced ==> (w == v <==> !(Occupied(v.skills, entries, i) && !Occupied(v.skills, entries, j)))
      {
        LeftoverIsStart(v.skills, entries, staging.value, i, j, replaced);
      }
    }
  }

  lemma SameOutsideNothing(a: Skills, b: Skills)
    requires SameOutside(a, b, {})
    ensures a == b
  {
    assert a - {} == a && b - {} == b;
  }

  lemma SameOutsideTwice(a: Skills, b: Skills, c: Skills, touched: set<string>)
    requires SameOutside(a, b, touched) && SameOutside(b, c, touched)
    ensures SameOutside(a, c, touched)
  {
  }

  /**
   Crash convergence of the runs themselves: an assignment may be tried any number of times, each try
   failing or dying at any step; if the last one succeeds, the state is what a single undisturbed run
   would have committed.
   */
  method MaterializeRepeatedly(disk: Disk, a: Assignment, downloads: seq<Download>, nfc: Normaliser)
    returns (outcomes: seq<Outcome>)
    modifies disk
    ensures |outcomes| == |downloads|
    ensures Committed(disk.Visible(), a) == Committed(old(disk.Visible()), a)
    ensures outcomes != [] && outcomes[|outcomes| - 1].Succeeded? ==>
              disk.Visible() == Committed(old(disk.Visible()), a)
  {
    hide Committed, Disturbed, AfterRefusal, Verdict, Objection;
    outcomes := [];
    for i := 0 to |downloads|
      invariant |outcomes| == i
      invariant Committed(disk.Visible(), a) == Committed(old(disk.Visible()), a)
      invariant i > 0 && outcomes[i - 1].Succeeded? ==> disk.Visible() == Committed(old(disk.Visible()), a)
    {
      ghost var v := disk.Visible();
      var outcome := MaterializeWorkflowSkills(disk, a, downloads[i], nfc);
      ghost var views := [v, disk.Visible()];
      CrashesConverge(a, views);
      outcomes := outcomes + [outcome];
    }
  }
}
