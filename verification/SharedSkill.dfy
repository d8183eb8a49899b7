/**
 A run that is not all-or-nothing: one Skill assigned to two paths, the first taken and the second
 free, with two revisions whose manifests have no file in common.
 */
module SharedSkill {
  import opened ArchiveMatching
  import opened Common
  import opened SkillMaterializer
  import opened SkillPublication
  import opened Utf16

  const A_FILE: Text := [0x61]
  const B_FILE: Text := [0x62]
  const FILE: File := File(1, "0")

  function PathOf(c: char): string {
    SKILLS + seq(36, _ => c)
  }

  function EntryOf(path: string, name: Text): Entry {
    Entry("s", "r", path, "z", [ManifestEntry(name, 1, "0")])
  }

  function ArchiveOf(name: Text): Archive {
    Archive(1, "z", Some([ZipEntry(name, 3, 0x8000, false, 0, FILE)]))
  }

  function Downloads(): Download {
    (e: Entry) => Some(ArchiveOf(if e.relativePath == PathOf('a') then A_FILE else B_FILE))
  }

  function Shared(): Assignment {
    Assignment("w", 1, [EntryOf(PathOf('a'), A_FILE), EntryOf(PathOf('b'), B_FILE)], [])
  }

  function StartWith(content: Content): View {
    View(map[PathOf('a') := content], Missing)
  }

  /** Names made of plain ASCII letters are in normal form. */
  ghost predicate KeepsNames(nfc: Normaliser) {
    nfc(A_FILE) == A_FILE && nfc(B_FILE) == B_FILE
  }

  predicate OneOf(name: Text) {
    name == A_FILE || name == B_FILE
  }

  lemma Paths()
    ensures IsSkillPath(PathOf('a')) && IsSkillPath(PathOf('b')) && PathOf('a') != PathOf('b')
  {
    assert PathOf('a')[|SKILLS|] == 'a' && PathOf('b')[|SKILLS|] == 'b';
    assert PathOf('a')[..|SKILLS|] == SKILLS && PathOf('b')[..|SKILLS|] == SKILLS;
  }

  lemma NameIsNormal(name: Text, nfc: Normaliser)
    requires OneOf(name) && KeepsNames(nfc)
    ensures !Traverses(name) && NormalizeZipPath(name, false, nfc) == Some(name) && LogicalPath(name, nfc)
  {
    assert Split(name) == [name];
    assert seq(1, i requires 0 <= i < 1 => nfc([name][i])) == [name];
    assert name[0] == 0x61 || name[0] == 0x62;
  }

  lemma EntryIsValid(c: char, name: Text, nfc: Normaliser)
    requires OneOf(name) && KeepsNames(nfc) && (c == 'a' || c == 'b')
    ensures EntryValid(EntryOf(PathOf(c), name), nfc)
  {
    hide LogicalPath, IsSkillPath;
    Paths();
    NameIsNormal(name, nfc);
  }

  lemma IsAccepted(nfc: Normaliser, content: Content)
    requires KeepsNames(nfc)
    ensures SchemaValid(Shared(), nfc)
    ensures Objection(Some("w"), false, StartWith(content).manifest, Shared(), nfc).None?
  {
    hide EntryValid, IsSkillPath, PathOf;
    EntryIsValid('a', A_FILE, nfc);
    EntryIsValid('b', B_FILE, nfc);
  }

  lemma ListIsOne(name: Text, nfc: Normaliser)
    requires OneOf(name) && KeepsNames(nfc)
    ensures var entries := ArchiveOf(name).zip.value;
            Acceptable(entries[0], nfc) && FileNames(entries) == [name] && FileContents(entries) == [FILE]
  {
    hide NormalizeZipPath;
    var entries := ArchiveOf(name).zip.value;
    NameIsNormal(name, nfc);
    assert entries[..0] == [];
  }

  lemma ManifestIsOne(name: Text)
    ensures ManifestFiles([ManifestEntry(name, 1, "0")]) == map[name := FILE]
  {
    assert [ManifestEntry(name, 1, "0")][..0] == [];
  }

  lemma MatchesItself(name: Text)
    ensures MatchFiles([name], {name}) == Some([name])
  {
    assert ResolveWrapper([name], {name}) == Some([]);
  }

  lemma ExaminesOne(name: Text, written: Files)
    requires OneOf(name) && name !in written && forall other :: other in written ==> OneOf(other)
    ensures Examine([name], [FILE], map[name := FILE], 0, written) == Ok(written[name := FILE])
  {
    assert !Clashes(name, written);
    assert !StartsWithDots(name);
    assert [name][1..] == [] && [FILE][1..] == [];
  }

  lemma Unpacks(name: Text, nfc: Normaliser, written: Files)
    requires OneOf(name) && KeepsNames(nfc) && name !in written && forall other :: other in written ==> OneOf(other)
    ensures Unpack(ArchiveOf(name).zip, [ManifestEntry(name, 1, "0")], nfc, written) == Ok(written[name := FILE])
  {
    hide Acceptable, FileNames, FileContents, ManifestFiles, MatchFiles, Examine, KeepsNames, OneOf;
    ListIsOne(name, nfc);
    ManifestIsOne(name);
    MatchesItself(name);
    ExaminesOne(name, written);
    assert map[name := FILE].Keys == {name};
  }

  /** Both archives are extracted into the one directory of the Skill. */
  lemma Stages(nfc: Normaliser)
    requires KeepsNames(nfc)
    ensures Stage(Shared().entries, Downloads(), nfc, map[]) == Ok(map["s" := map[A_FILE := FILE, B_FILE := FILE]])
  {
    hide Unpack, KeepsNames, PathOf;
    Paths();
    Unpacks(A_FILE, nfc, map[]);
    var first: Files := map[][A_FILE := FILE];
    Unpacks(B_FILE, nfc, first);
    StagesTwo(nfc, first);
    assert first[B_FILE := FILE] == map[A_FILE := FILE, B_FILE := FILE];
  }

  lemma StagesTwo(nfc: Normaliser, first: Files)
    requires PathOf('a') != PathOf('b')
    requires Unpack(ArchiveOf(A_FILE).zip, [ManifestEntry(A_FILE, 1, "0")], nfc, map[]) == Ok(first)
    requires Unpack(ArchiveOf(B_FILE).zip, [ManifestEntry(B_FILE, 1, "0")], nfc, first) == Ok(first[B_FILE := FILE])
    ensures Stage(Shared().entries, Downloads(), nfc, map[]) == Ok(map["s" := first[B_FILE := FILE]])
  {
    hide Unpack, PathOf;
    var entries := Shared().entries;
    assert entries[1..] == [entries[1]] && [entries[1]][1..] == [];
    assert Fetch(entries[0], Downloads()(entries[0]), nfc, map[]) == Ok(first);
    assert Fetch(entries[1], Downloads()(entries[1]), nfc, first) == Ok(first[B_FILE := FILE]);
    assert map["s" := first]["s" := first[B_FILE := FILE]] == map["s" := first[B_FILE := FILE]];
  }

  lemma MovesTheTree(content: Content, trees: map<string, Files>, replaced: bool)
    ensures Leftover(StartWith(content).skills, Shared().entries, trees, 0, 1, replaced) == map[PathOf('b') := content]
  {
    hide PathOf;
    Paths();
    var entries, before := Shared().entries, StartWith(content).skills;
    assert entries[..0] == [];
    assert Placed(before, entries[..0], trees) == before;
    assert before - {PathOf('a')} == map[];
    assert !Follows(entries, 0) && !Occupied(before, entries, 1);
  }

  /**
   The schema and the checks accept the assignment and both archives are staged, yet its Skill is
   repeated, with the first path taken and the second free.
   */
  lemma SharedSkillExample(content: Content, nfc: Normaliser)
    requires KeepsNames(nfc)
    ensures SchemaValid(Shared(), nfc)
    ensures Objection(Some("w"), false, StartWith(content).manifest, Shared(), nfc).None?
    ensures Stage(Shared().entries, Downloads(), nfc, map[]).Ok?
    ensures Repeats(Shared().entries, 0, 1)
    ensures Occupied(StartWith(content).skills, Shared().entries, 0)
    ensures !Occupied(StartWith(content).skills, Shared().entries, 1)
  {
    hide PathOf, SchemaValid, Stage;
    Paths();
    IsAccepted(nfc, content);
    Stages(nfc);
  }

  /** A fault-free run of it fails, empties the first path and leaves its tree at the second. */
  method SharedSkillRun(content: Content, nfc: Normaliser) returns (disk: Disk, outcome: Outcome)
    requires KeepsNames(nfc)
    ensures disk.faults == 0 && !outcome.Crashed? ==>
              outcome == Failed(PublishFailed) && disk.Visible() == View(map[PathOf('b') := content], Missing)
  {
    hide PathOf, SchemaValid, Stage, Leftover;
    var a, v := Shared(), StartWith(content);
    disk := new Disk(v, Some("w"), false);
    SharedSkillExample(content, nfc);
    outcome := MaterializeWorkflowSkills(disk, a, Downloads(), nfc);
    MovesTheTree(content, Stage(a.entries, Downloads(), nfc, map[]).value, disk.replaced > 0);
  }
}
