/**
 What publishing Workflow Skills means for a Workspace, apart from how it is done: the state a
 publication commits, what a run may disturb before that, and what undoing a swap does.
 The steps themselves are in SkillMaterializer.
 */
module SkillPublication {
  import opened Common
  import opened ArchiveMatching
  import opened Utf16

  const MAX_ARCHIVE_BYTES: nat := 20_971_520
  const MAX_FILE_BYTES: nat := 20_971_520
  const SKILLS: string := ".mystra/skills/"

  /** What stands at a Skill path: a verified tree, something else, or what an interrupted removal left. */
  datatype Content = Tree(files: Files) | Foreign(tag: string) | Torn

  type Skills = map<string, Content>

  datatype Record = Record(relativePath: string, skillId: string, revisionId: string)

  /** The installed manifest; Corrupt is a file that cannot be read or is not JSON. */
  datatype ManifestFile =
    | Missing
    | Corrupt
    | Parsed(version: int, workspaceId: string, generation: nat, entries: Option<seq<Record>>)

  datatype Archive = Archive(length: nat, sha256: string, zip: Option<seq<ZipEntry>>)

  datatype Entry = Entry(
    skillId: string, revisionId: string, relativePath: string, zipSha256: string,
    manifest: seq<ManifestEntry>)

  /** What downloading an entry's archive yields; None is a failed download. */
  type Download = Entry -> Option<Archive>

  datatype Assignment = Assignment(
    workspaceId: string, generation: nat, entries: seq<Entry>, removals: seq<string>)

  /** What the rest of the system sees: the paths under the skills directory and the manifest. */
  datatype View = View(skills: Skills, manifest: ManifestFile)

  // ---------------------------------------------------------------- the assignment

  predicate HexOrDash(c: char) {
    '0' <= c <= '9' || 'a' <= c <= 'f' || c == '-'
  }

  predicate IsSkillPath(path: string) {
    && |path| == |SKILLS| + 36 && path[..|SKILLS|] == SKILLS
    && forall i :: |SKILLS| <= i < |path| ==> HexOrDash(path[i])
  }

  predicate LogicalPath(path: Text, nfc: Normaliser) {
    && 1 <= |path| <= MAX_PATH && BACKSLASH !in path && 0 !in path && nfc(path) == path
    && !Traverses(path)
  }

  predicate EntryValid(e: Entry, nfc: Normaliser) {
    && IsSkillPath(e.relativePath) && 1 <= |e.manifest| <= 1_000
    && forall i :: 0 <= i < |e.manifest| ==>
         LogicalPath(e.manifest[i].path, nfc) && e.manifest[i].sizeBytes <= MAX_FILE_BYTES
  }

  /** The assignment schema. It does not ask for distinct Skills or distinct paths. */
  predicate SchemaValid(a: Assignment, nfc: Normaliser) {
    && a.generation > 0 && |a.entries| <= 16 && |a.removals| <= 16
    && (forall i :: 0 <= i < |a.entries| ==> EntryValid(a.entries[i], nfc))
    && forall i :: 0 <= i < |a.removals| ==> IsSkillPath(a.removals[i])
  }

  /** A Skill path is the skills folder followed by 36 hexadecimal digits and dashes. */
  lemma SkillPathIsNamed(path: string)
    ensures IsSkillPath(path)
       <==> exists name :: |name| == 36 && path == ".mystra/skills/" + name
                           && forall i :: 0 <= i < 36 ==> name[i] in "0123456789abcdef-"
  {
    var folder := ".mystra/skills/";
    if IsSkillPath(path) {
      var name := path[|folder|..];
      assert path == folder + name;
      forall i | 0 <= i < 36
        ensures name[i] in "0123456789abcdef-"
      {
        HexOrDashIsListed(name[i]);
      }
    }
    if name :| |name| == 36 && path == folder + name && forall i :: 0 <= i < 36 ==> name[i] in "0123456789abcdef-" {
      assert path[..|folder|] == folder;
      forall i | |folder| <= i < |path|
        ensures HexOrDash(path[i])
      {
        HexOrDashIsListed(name[i - |folder|]);
      }
    }
  }

  lemma HexOrDashIsListed(c: char)
    ensures HexOrDash(c) <==> c in "0123456789abcdef-"
  {
    var all := "0123456789abcdef-";
    assert all[0] == '0' && all[1] == '1' && all[2] == '2' && all[3] == '3' && all[4] == '4' && all[5] == '5';
    assert all[6] == '6' && all[7] == '7' && all[8] == '8' && all[9] == '9' && all[10] == 'a' && all[11] == 'b';
    assert all[12] == 'c' && all[13] == 'd' && all[14] == 'e' && all[15] == 'f' && all[16] == '-';
  }

  predicate DistinctIds(entries: seq<Entry>) {
    forall i, j :: 0 <= i < j < |entries| ==> entries[i].skillId != entries[j].skillId
  }

  // ---------------------------------------------------------------- what a publication commits

  /** The trees an assignment puts in place; for a path named twice, the later entry's. */
  function Desired(entries: seq<Entry>): Skills {
    if entries == [] then map[]
    else
      var e := entries[|entries| - 1];
      Desired(entries[..|entries| - 1])[e.relativePath := Tree(ManifestFiles(e.manifest))]
  }

  /** The previously installed entries, if the manifest belongs to this Workspace. */
  function Previous(m: ManifestFile, workspaceId: string): seq<Record> {
    if m.Parsed? && m.version == 1 && m.workspaceId == workspaceId && m.entries.Some? then m.entries.value else []
  }

  function StalePaths(records: seq<Record>, desired: set<string>): set<string> {
    set r | r in records && r.relativePath !in desired && IsSkillPath(r.relativePath) :: r.relativePath
  }

  function RemovalPaths(removals: seq<string>, desired: set<string>): set<string> {
    set p | p in removals && p !in desired
  }

  function Obsolete(m: ManifestFile, a: Assignment): set<string> {
    var desired := Desired(a.entries).Keys;
    StalePaths(Previous(m, a.workspaceId), desired) + RemovalPaths(a.removals, desired)
  }

  function Records(entries: seq<Entry>): seq<Record> {
    seq(|entries|, i requires 0 <= i < |entries| =>
      Record(entries[i].relativePath, entries[i].skillId, entries[i].revisionId))
  }

  function NewManifest(a: Assignment): ManifestFile {
    Parsed(1, a.workspaceId, a.generation, Some(Records(a.entries)))
  }

  function Committed(v: View, a: Assignment): View {
    View(v.skills - Obsolete(v.manifest, a) + Desired(a.entries), NewManifest(a))
  }

  /** The paths a run may touch. */
  function Touched(m: ManifestFile, a: Assignment): set<string> {
    Desired(a.entries).Keys + Obsolete(m, a)
  }

  predicate SameOutside(before: Skills, after: Skills, touched: set<string>) {
    before - touched == after - touched
  }

  /** Where a run may have stopped before its commit. */
  predicate Disturbed(v: View, a: Assignment, w: View) {
    w.manifest == v.manifest && SameOutside(v.skills, w.skills, Touched(v.manifest, a))
  }

  lemma {:induction false} DesiredKeys(entries: seq<Entry>)
    ensures forall path :: path in Desired(entries) <==>
              exists i :: 0 <= i < |entries| && entries[i].relativePath == path
  {
    if entries != [] {
      var n := |entries| - 1;
      DesiredKeys(entries[..n]);
      forall path
        ensures path in Desired(entries) <==> exists i :: 0 <= i < |entries| && entries[i].relativePath == path
      {
        if i :| 0 <= i < |entries| && entries[i].relativePath == path {
          assert i == n || entries[..n][i].relativePath == path;
        }
        if path in Desired(entries[..n]) {
          var i :| 0 <= i < n && entries[..n][i].relativePath == path;
          assert entries[i].relativePath == path;
        }
        assert entries[n].relativePath == entries[|entries| - 1].relativePath;
      }
    }
  }

  /** No later entry names the same path. */
  predicate LastForItsPath(entries: seq<Entry>, i: nat) {
    i < |entries| && forall j :: i < j < |entries| ==> entries[j].relativePath != entries[i].relativePath
  }

  lemma {:induction false} DesiredAt(entries: seq<Entry>, i: nat)
    requires LastForItsPath(entries, i)
    ensures entries[i].relativePath in Desired(entries)
    ensures Desired(entries)[entries[i].relativePath] == Tree(ManifestFiles(entries[i].manifest))
  {
    var n := |entries| - 1;
    if i < n {
      DesiredAt(entries[..n], i);
    }
  }

  /** Listed for removal, or a Skill path the previous manifest had installed. */
  ghost predicate Retired(m: ManifestFile, a: Assignment, path: string) {
    || path in a.removals
    || (&& IsSkillPath(path) && m.Parsed? && m.version == 1 && m.workspaceId == a.workspaceId && m.entries.Some?
        && exists r :: r in m.entries.value && r.relativePath == path)
  }

  /**
   A committed publication is exact and framed: each entry's path (the last entry's, for a path named
   twice) holds its verified tree, each previously installed or listed path that is not desired is
   gone, and nothing else has changed; and the manifest lists the entries in order.
   */
  lemma CommittedIsExactAndFramed(v: View, a: Assignment)
    ensures forall i: nat :: LastForItsPath(a.entries, i) ==>
              && a.entries[i].relativePath in Committed(v, a).skills
              && Committed(v, a).skills[a.entries[i].relativePath] == Tree(ManifestFiles(a.entries[i].manifest))
    ensures forall path :: Retired(v.manifest, a, path) && path !in Desired(a.entries) ==>
              path !in Committed(v, a).skills
    ensures forall path :: !Retired(v.manifest, a, path) && path !in Desired(a.entries) ==>
              && (path in Committed(v, a).skills <==> path in v.skills)
              && (path in v.skills ==> Committed(v, a).skills[path] == v.skills[path])
    ensures var m := Committed(v, a).manifest;
            && m.Parsed? && m.version == 1 && m.workspaceId == a.workspaceId && m.generation == a.generation
            && m.entries.Some? && |m.entries.value| == |a.entries|
            && forall i :: 0 <= i < |a.entries| ==>
                 && m.entries.value[i].relativePath == a.entries[i].relativePath
                 && m.entries.value[i].skillId == a.entries[i].skillId
                 && m.entries.value[i].revisionId == a.entries[i].revisionId
  {
    hide Desired, ManifestFiles, IsSkillPath;
    forall i: nat | LastForItsPath(a.entries, i)
      ensures a.entries[i].relativePath in Committed(v, a).skills
      ensures Committed(v, a).skills[a.entries[i].relativePath] == Tree(ManifestFiles(a.entries[i].manifest))
    {
      DesiredAt(a.entries, i);
    }
  }

  // ---------------------------------------------------------------- crash convergence

  /** Whatever a run disturbs before its commit, a complete run of the same assignment repairs. */
  lemma DisturbanceIsRepaired(v: View, a: Assignment, w: View)
    requires Disturbed(v, a, w)
    ensures Committed(w, a) == Committed(v, a)
  {
    hide StalePaths, RemovalPaths, Records, Previous;
    var obsolete, desired := Obsolete(v.manifest, a), Desired(a.entries);
    assert Obsolete(w.manifest, a) == obsolete;
    forall path
      ensures path in v.skills - obsolete + desired <==> path in w.skills - obsolete + desired
      ensures path in v.skills - obsolete + desired ==>
                (v.skills - obsolete + desired)[path] == (w.skills - obsolete + desired)[path]
    {
      if path !in Touched(v.manifest, a) {
        assert path in v.skills <==> path in v.skills - Touched(v.manifest, a);
        assert path in w.skills <==> path in w.skills - Touched(v.manifest, a);
        if path in v.skills {
          assert v.skills[path] == (v.skills - Touched(v.manifest, a))[path];
        }
      }
    }
    assert v.skills - obsolete + desired == w.skills - obsolete + desired;
  }

  lemma RecordsAreDesired(a: Assignment)
    ensures Obsolete(NewManifest(a), a) == RemovalPaths(a.removals, Desired(a.entries).Keys)
  {
    DesiredKeys(a.entries);
    var desired := Desired(a.entries).Keys;
    forall r | r in Previous(NewManifest(a), a.workspaceId)
      ensures r.relativePath in desired
    {
      var i :| 0 <= i < |Records(a.entries)| && Records(a.entries)[i] == r;
      assert a.entries[i].relativePath == r.relativePath;
    }
    assert StalePaths(Previous(NewManifest(a), a.workspaceId), desired) == {};
  }

  lemma CommittingTwiceIsOnce(v: View, a: Assignment)
    ensures Committed(Committed(v, a), a) == Committed(v, a)
  {
    hide StalePaths, RemovalPaths, Records, Previous;
    RecordsAreDesired(a);
    var desired := Desired(a.entries);
    var removed := RemovalPaths(a.removals, desired.Keys);
    assert removed <= Obsolete(v.manifest, a);
    var done := v.skills - Obsolete(v.manifest, a) + desired;
    assert forall path :: path in removed ==> path !in desired by { RemovedNotDesired(a); }
    assert done - removed + desired == done;
  }

  lemma RemovedNotDesired(a: Assignment)
    ensures forall path :: path in RemovalPaths(a.removals, Desired(a.entries).Keys) ==> path !in Desired(a.entries)
  {
  }

  /** What one run of an assignment may leave: nothing changed, a disturbance, or the commit. */
  predicate Leaves(v: View, a: Assignment, w: View) {
    w == v || Disturbed(v, a, w) || w == Committed(v, a)
  }

  ghost predicate Attempts(a: Assignment, views: seq<View>) {
    && views != []
    && forall i :: 0 <= i < |views| - 1 ==> Leaves(views[i], a, views[i + 1])
  }

  /**
   Crash convergence: however many runs of an assignment fail or stop at any step, one complete run
   afterwards gives exactly what an uninterrupted first run gives.
   */
  lemma {:induction false} CrashesConverge(a: Assignment, views: seq<View>)
    requires Attempts(a, views)
    ensures Committed(views[|views| - 1], a) == Committed(views[0], a)
  {
    hide Committed, Disturbed;
    var n := |views| - 1;
    if n > 0 {
      CrashesConverge(a, views[..n]);
      if Disturbed(views[n - 1], a, views[n]) {
        DisturbanceIsRepaired(views[n - 1], a, views[n]);
      } else if views[n] != views[n - 1] {
        CommittingTwiceIsOnce(views[n - 1], a);
      }
    }
  }

  // ---------------------------------------------------------------- the manifest tells the truth

  datatype Run = Run(assignment: Assignment, published: bool)

  /** The views a sequence of runs goes through when each publishes or is rolled back. */
  function Runs(v: View, runs: seq<Run>): View {
    if runs == [] then v
    else
      var w := Runs(v, runs[..|runs| - 1]);
      var run := runs[|runs| - 1];
      if run.published then Committed(w, run.assignment) else w
  }

  /** Every installed path is on disk. */
  predicate InstalledPresent(v: View, workspaceId: string) {
    forall i :: 0 <= i < |Previous(v.manifest, workspaceId)| ==>
        Previous(v.manifest, workspaceId)[i].relativePath in v.skills
  }

  /** The published assignment the manifest stems from, if any run published. */
  function LastPublished(runs: seq<Run>): Option<Assignment> {
    if runs == [] then None
    else if runs[|runs| - 1].published then Some(runs[|runs| - 1].assignment)
    else LastPublished(runs[..|runs| - 1])
  }

  /**
   Across any sequence of published and rolled-back runs in one Workspace, every path in the
   installed manifest is on disk; and once a run has published, the manifest is the last published
   assignment's, each of its paths holds that assignment's tree, and none of its removals is there.
   */
  lemma {:induction false} ManifestTellsTheTruth(v: View, runs: seq<Run>, workspaceId: string)
    requires InstalledPresent(v, workspaceId)
    requires forall i :: 0 <= i < |runs| ==> runs[i].assignment.workspaceId == workspaceId
    ensures InstalledPresent(Runs(v, runs), workspaceId)
    ensures LastPublished(runs).Some? ==>
              var a := LastPublished(runs).value;
              && Runs(v, runs).manifest == NewManifest(a)
              && (forall path :: path in Desired(a.entries) ==>
                    path in Runs(v, runs).skills && Runs(v, runs).skills[path] == Desired(a.entries)[path])
              && forall path :: path in a.removals && path !in Desired(a.entries) ==> path !in Runs(v, runs).skills
    ensures LastPublished(runs).None? ==> Runs(v, runs) == v
  {
    if runs != [] {
      var n := |runs| - 1;
      ManifestTellsTheTruth(v, runs[..n], workspaceId);
      if runs[n].published {
        CommitIsInstalled(Runs(v, runs[..n]), runs[n].assignment);
      }
    }
  }

  lemma CommitIsInstalled(v: View, a: Assignment)
    ensures InstalledPresent(Committed(v, a), a.workspaceId)
    ensures forall path :: path in Desired(a.entries) ==>
              path in Committed(v, a).skills && Committed(v, a).skills[path] == Desired(a.entries)[path]
    ensures forall path :: path in a.removals && path !in Desired(a.entries) ==> path !in Committed(v, a).skills
  {
    hide Desired, StalePaths;
    DesiredKeys(a.entries);
    forall i | 0 <= i < |Records(a.entries)|
      ensures Records(a.entries)[i].relativePath in Desired(a.entries)
    {
      assert a.entries[i].relativePath == Records(a.entries)[i].relativePath;
    }
  }

  // ---------------------------------------------------------------- swapping and undoing

  /** Where the staging directory keeps what was in the way: per Skill, or per removed path. */
  datatype Backup = PreviousOf(skillId: string) | RemovedFrom(path: string)

  datatype Layout = Layout(skills: Skills, aside: map<Backup, Content>)

  datatype Published = Published(final: string, backup: Option<Backup>)

  function Aside(l: Layout, path: string, backup: Backup): Layout
    requires path in l.skills
  {
    Layout(l.skills - {path}, l.aside[backup := l.skills[path]])
  }

  function Installed(l: Layout, path: string, content: Content): Layout {
    Layout(l.skills[path := content], l.aside)
  }

  function Restored(l: Layout, backup: Backup, path: string): Layout
    requires backup in l.aside
  {
    Layout(l.skills[path := l.aside[backup]], l.aside - {backup})
  }

  function Swapped(l: Layout, path: string, backup: Backup, content: Content): Layout {
    Installed(if path in l.skills then Aside(l, path, backup) else l, path, content)
  }

  /** Removing what was put in place and putting back what had been there. */
  function UndoOne(l: Layout, item: Published): Layout {
    var cleared := Layout(l.skills - {item.final}, l.aside);
    if item.backup.Some? && item.backup.value in l.aside then Restored(cleared, item.backup.value, item.final)
      else cleared
  }

  /** From the last item to the first. */
  function Undo(l: Layout, items: seq<Published>): Layout
    decreases |items|
  {
    if items == [] then l else Undo(UndoOne(l, items[|items| - 1]), items[..|items| - 1])
  }

  lemma UndoLast(l: Layout, items: seq<Published>, item: Published)
    ensures Undo(l, items + [item]) == Undo(UndoOne(l, item), items)
  {
  }

  /** A swap with a fresh backup is undone exactly. */
  lemma SwapIsUndone(l: Layout, path: string, backup: Backup, content: Content)
    requires backup !in l.aside
    ensures var after := Swapped(l, path, backup, content);
            UndoOne(after, Published(path, if backup in after.aside then Some(backup) else None)) == l
  {
  }

  lemma RemovalIsUndone(l: Layout, path: string, backup: Backup)
    requires path in l.skills && backup !in l.aside
    ensures UndoOne(Aside(l, path, backup), Published(path, Some(backup))) == l
    ensures Restored(Aside(l, path, backup), backup, path) == l
  {
  }

  predicate Publishes(items: seq<Published>, path: string) {
    exists i :: 0 <= i < |items| && items[i].final == path
  }

  /** The two layouts have the same backups as far as the items refer to them. */
  predicate Alike(l: Layout, m: Layout, items: seq<Published>) {
    forall i :: 0 <= i < |items| && items[i].backup.Some? ==>
      var b := items[i].backup.value;
      (b in l.aside <==> b in m.aside) && (b in l.aside ==> l.aside[b] == m.aside[b])
  }

  lemma AlikeAfterOne(l: Layout, m: Layout, items: seq<Published>)
    requires Alike(l, m, items) && items != []
    ensures var n := |items| - 1; Alike(UndoOne(l, items[n]), UndoOne(m, items[n]), items[..n])
  {
  }

  lemma {:induction false} SameUndo(l: Layout, m: Layout, items: seq<Published>)
    requires m.skills == l.skills && Alike(l, m, items)
    ensures Undo(m, items).skills == Undo(l, items).skills
    decreases |items|
  {
    if items != [] {
      AlikeAfterOne(l, m, items);
      var n := |items| - 1;
      SameUndo(UndoOne(l, items[n]), UndoOne(m, items[n]), items[..n]);
    }
  }

  lemma ExtraUndoOne(l: Layout, m: Layout, path: string, content: Content, item: Published)
    requires m.skills == l.skills[path := content] && Alike(l, m, [item])
    ensures UndoOne(m, item).skills
         == if item.final == path then UndoOne(l, item).skills else UndoOne(l, item).skills[path := content]
  {
    assert [item][0] == item;
  }

  lemma PublishesLast(items: seq<Published>, path: string)
    requires items != []
    ensures var n := |items| - 1; Publishes(items, path) <==> items[n].final == path || Publishes(items[..n], path)
  {
    var n := |items| - 1;
    assert forall i :: 0 <= i < n ==> items[..n][i] == items[i];
  }

  /** One more path survives undoing, unless an item publishes it. */
  lemma {:induction false} ExtraUndo(l: Layout, m: Layout, path: string, content: Content, items: seq<Published>)
    requires m.skills == l.skills[path := content] && Alike(l, m, items)
    ensures Undo(m, items).skills
         == if Publishes(items, path) then Undo(l, items).skills else Undo(l, items).skills[path := content]
    decreases |items|
  {
    hide UndoOne, Publishes;
    if items != [] {
      var n := |items| - 1;
      var item, rest := items[n], items[..n];
      PublishesLast(items, path);
      AlikeAfterOne(l, m, items);
      assert Alike(l, m, [item]);
      ExtraUndoOne(l, m, path, content, item);
      if item.final == path {
        SameUndo(UndoOne(l, item), UndoOne(m, item), rest);
      } else {
        ExtraUndo(UndoOne(l, item), UndoOne(m, item), path, content, rest);
      }
    } else {
      NonePublishes(path);
    }
  }

  lemma NonePublishes(path: string)
    ensures !Publishes([], path)
  {
  }

  /**
   Undoing everything but a swap that was never recorded: its tree stays, unless an earlier item
   publishes the same path.
   */
  lemma UnrecordedSwap(l: Layout, path: string, backup: Backup, content: Content, items: seq<Published>)
    requires backup !in l.aside && forall i :: 0 <= i < |items| ==> items[i].backup != Some(backup)
    ensures Undo(Swapped(l, path, backup, content), items).skills
         == if Publishes(items, path) then Undo(l, items).skills else Undo(l, items).skills[path := content]
  {
    ExtraUndo(l, Swapped(l, path, backup, content), path, content, items);
  }

  /** A path no item publishes is there after undoing exactly if it was before. */
  lemma {:induction false} UnpublishedStays(l: Layout, items: seq<Published>, path: string)
    requires !Publishes(items, path)
    ensures path in Undo(l, items).skills <==> path in l.skills
    decreases |items|
  {
    if items != [] {
      PublishesLast(items, path);
      UnpublishedStays(UndoOne(l, items[|items| - 1]), items[..|items| - 1], path);
    }
  }

  /** The item's backup is aside, and no other item refers to it. */
  predicate OnlyUser(items: seq<Published>, i: nat, backup: Backup) {
    && i < |items| && items[i].backup == Some(backup)
    && forall k :: 0 <= k < |items| && k != i ==> items[k].backup != Some(backup)
  }

  /** Undoing without one of the backups loses its path, unless an earlier item publishes it too. */
  lemma {:induction false} LostBackup(l: Layout, items: seq<Published>, i: nat, backup: Backup)
    requires OnlyUser(items, i, backup) && backup in l.aside
    ensures Undo(Layout(l.skills, l.aside - {backup}), items).skills
         == if Publishes(items[..i], items[i].final) then Undo(l, items).skills
            else Undo(l, items).skills - {items[i].final}
    decreases |items|
  {
    hide Publishes;
    var n := |items| - 1;
    var item, rest := items[n], items[..n];
    var without := Layout(l.skills, l.aside - {backup});
    if n == i {
      assert items[..i] == rest;
      LostLast(l, rest, item, backup);
    } else {
      assert OnlyUser(rest, i, backup) && rest[..i] == items[..i];
      UndoOneWithout(l, item, backup);
      LostBackup(UndoOne(l, item), rest, i, backup);
    }
  }

  lemma UndoOneWithout(l: Layout, item: Published, backup: Backup)
    requires backup in l.aside && item.backup != Some(backup)
    ensures backup in UndoOne(l, item).aside
    ensures UndoOne(Layout(l.skills, l.aside - {backup}), item)
         == Layout(UndoOne(l, item).skills, UndoOne(l, item).aside - {backup})
  {
    if item.backup.Some? {
      assert l.aside - {backup} - {item.backup.value} == l.aside - {item.backup.value} - {backup};
    }
  }

  lemma LostLast(l: Layout, rest: seq<Published>, item: Published, backup: Backup)
    requires item.backup == Some(backup) && backup in l.aside
    ensures Undo(UndoOne(Layout(l.skills, l.aside - {backup}), item), rest).skills
         == if Publishes(rest, item.final) then Undo(UndoOne(l, item), rest).skills
            else Undo(UndoOne(l, item), rest).skills - {item.final}
  {
    hide Publishes, Undo, Alike;
    var with, without := UndoOne(l, item), UndoOne(Layout(l.skills, l.aside - {backup}), item);
    assert with.skills == without.skills[item.final := l.aside[backup]];
    assert with.aside == without.aside;
    assert Alike(without, with, rest) by { SameAsideAlike(without, with, rest); }
    ExtraUndo(without, with, item.final, l.aside[backup], rest);
    if !Publishes(rest, item.final) {
      UnpublishedStays(without, rest, item.final);
      assert Undo(with, rest).skills - {item.final} == Undo(without, rest).skills;
    }
  }

  lemma SameAsideAlike(l: Layout, m: Layout, items: seq<Published>)
    requires l.aside == m.aside
    ensures Alike(l, m, items)
  {
  }

  // ---------------------------------------------------------------- what swapping leaves

  function StagedTree(staged: map<string, Files>, skillId: string): Files {
    if skillId in staged then staged[skillId] else map[]
  }

  /** Each entry's tree is staged under its Skill. */
  predicate StagedFor(staged: map<string, Files>, entries: seq<Entry>) {
    forall i :: 0 <= i < |entries| ==>
      entries[i].skillId in staged && staged[entries[i].skillId] == ManifestFiles(entries[i].manifest)
  }

  /** The paths once each entry's staged tree has been put in place. */
  function Placed(before: Skills, entries: seq<Entry>, trees: map<string, Files>): Skills {
    if entries == [] then before
    else
      var e := entries[|entries| - 1];
      Placed(before, entries[..|entries| - 1], trees)[e.relativePath := Tree(StagedTree(trees, e.skillId))]
  }

  lemma PlacedMore(before: Skills, entries: seq<Entry>, trees: map<string, Files>, n: nat)
    requires n < |entries|
    ensures Placed(before, entries[..n + 1], trees)
         == Placed(before, entries[..n], trees)[entries[n].relativePath := Tree(StagedTree(trees, entries[n].skillId))]
  {
    assert entries[..n + 1][..n] == entries[..n];
  }

  lemma {:induction false} PlacedIsDesired(before: Skills, entries: seq<Entry>, trees: map<string, Files>)
    requires StagedFor(trees, entries)
    ensures Placed(before, entries, trees) == before + Desired(entries)
  {
    hide ManifestFiles;
    if entries == [] {
      assert before + map[] == before;
    } else {
      PlacedIsDesired(before, entries[..|entries| - 1], trees);
    }
  }

  /** An earlier entry names the same path. */
  predicate Follows(entries: seq<Entry>, k: nat) {
    k < |entries| && exists m :: 0 <= m < k && entries[m].relativePath == entries[k].relativePath
  }

  /** The entry's path is taken when its turn comes. */
  predicate Occupied(before: Skills, entries: seq<Entry>, k: nat) {
    k < |entries| && (entries[k].relativePath in before || Follows(entries, k))
  }

  lemma {:induction false} PlacedKeys(
      before: Skills, entries: seq<Entry>, trees: map<string, Files>, n: nat, path: string)
    requires n <= |entries|
    ensures path in Placed(before, entries[..n], trees)
       <==> path in before || exists m :: 0 <= m < n && entries[m].relativePath == path
  {
    if n == 0 {
      assert entries[..0] == [];
    } else {
      PlacedMore(before, entries, trees, n - 1);
      PlacedKeys(before, entries, trees, n - 1, path);
      if entries[n - 1].relativePath != path && path in Placed(before, entries[..n], trees) {
        assert path in Placed(before, entries[..n - 1], trees);
      }
    }
  }

  predicate DistinctBelow(entries: seq<Entry>, n: nat) {
    n <= |entries| && forall i, j :: 0 <= i < j < n ==> entries[i].skillId != entries[j].skillId
  }

  /** The first entry whose Skill an earlier one has, and that earlier one. */
  predicate Repeats(entries: seq<Entry>, i: nat, j: nat) {
    i < j < |entries| && entries[i].skillId == entries[j].skillId && DistinctBelow(entries, j)
  }

  lemma {:induction false} RepeatExists(entries: seq<Entry>, n: nat) returns (i: nat, j: nat)
    requires n <= |entries| && !DistinctBelow(entries, n)
    ensures Repeats(entries, i, j) && j < n
  {
    if DistinctBelow(entries, n - 1) {
      j := n - 1;
      i :| 0 <= i < j && entries[i].skillId == entries[j].skillId;
    } else {
      i, j := RepeatExists(entries, n - 1);
    }
  }

  lemma RepeatIsUnique(entries: seq<Entry>, i: nat, j: nat, i': nat, j': nat)
    requires Repeats(entries, i, j) && Repeats(entries, i', j')
    ensures i == i' && j == j'
  {
  }

  /**
   The paths a rolled-back run leaves when entry j repeats the Skill of entry i and no step throws.
   `replaced` says that the rename onto the taken backup name went through.
   */
  function Leftover(
      before: Skills, entries: seq<Entry>, trees: map<string, Files>, i: nat, j: nat, replaced: bool): Skills
    requires i < j < |entries|
  {
    var first, second := entries[i].relativePath, entries[j].relativePath;
    var found := Placed(before, entries[..i], trees);
    var rest := if Follows(entries, i) then before else before - {first};
    if first !in found then before
    else if !Occupied(before, entries, j) then rest[second := found[first]]
    else if replaced then rest
    else before
  }

  /**
   Such a run leaves the paths as they were exactly when not (the first path is taken and the second
   is free), and, if the taken backup was replaced, an earlier entry has the first path as well.
   */
  lemma LeftoverIsStart(before: Skills, entries: seq<Entry>, trees: map<string, Files>, i: nat, j: nat, replaced: bool)
    requires Repeats(entries, i, j)
    ensures Leftover(before, entries, trees, i, j, replaced) == before
       <==> (Occupied(before, entries, i) ==>
               Occupied(before, entries, j) && (replaced ==> Follows(entries, i)))
  {
    var first, second := entries[i].relativePath, entries[j].relativePath;
    PlacedKeys(before, entries, trees, i, first);
    assert second !in before ==> second in before[second := Torn];
    if !Follows(entries, i) {
      assert first !in before - {first};
    }
  }
}
