/**
 The rules an archive has to meet, stated apart from the functions that check them: what an acceptable
 entry is, which entries are files, what the manifest names, and which refusal comes first.
 */
module ArchiveRules {
  import opened ArchiveMatching
  import opened Common
  import opened Utf16

  // ---------------------------------------------------------------- names

  /** Splitting undoes joining, for segments without slashes. */
  lemma {:induction false} JoinSplits(parts: seq<Text>)
    requires parts != [] && forall i :: 0 <= i < |parts| ==> SLASH !in parts[i]
    ensures Split(Join(parts)) == parts
    decreases |parts|
  {
    hide Join, Split;
    var head, rest := parts[0], parts[1..];
    assert parts == [head] + rest;
    if rest == [] {
      assert parts == [head];
      JoinOne(head);
      SplitOne(head);
    } else {
      JoinCons(head, rest);
      JoinSplits(rest);
      SplitCons(head, Join(rest));
    }
  }

  lemma SplitOne(part: Text)
    requires SLASH !in part
    ensures Split(part) == [part]
  {
  }

  lemma SplitCons(head: Text, rest: Text)
    requires SLASH !in head
    ensures Split(head + [SLASH] + rest) == [head] + Split(rest)
  {
    var t := head + [SLASH] + rest;
    assert t[|head|] == SLASH;
    assert forall k :: 0 <= k < |head| ==> t[k] == head[k];
    assert IndexOf(t, SLASH) == |head|;
    assert t[..|head|] == head && t[|head| + 1..] == rest;
  }

  /** A segment that names something inside its folder. */
  predicate Clean(part: Text) {
    part != [] && part != [0x2E] && part != [0x2E, 0x2E] && 0x2F !in part
  }

  function NormalForms(parts: seq<Text>, nfc: Normaliser): seq<Text> {
    seq(|parts|, i requires 0 <= i < |parts| => nfc(parts[i]))
  }

  /** Clean segments joined by slashes, each in normal form as far as the joined name shows. */
  ghost predicate SpelledBy(value: Text, parts: seq<Text>, nfc: Normaliser) {
    && parts != [] && (forall i :: 0 <= i < |parts| ==> Clean(parts[i]))
    && value == Join(parts) && value == Join(NormalForms(parts, nfc))
  }

  /** A relative name without drive letter, backslash or NUL, of at most 1,024 code units. */
  ghost predicate SafeName(value: Text, nfc: Normaliser) {
    && 0x5C !in value && 0 !in value && |value| <= 1_024
    && !(|value| >= 2 && value[1] == 0x3A && (0x41 <= value[0] <= 0x5A || 0x61 <= value[0] <= 0x7A))
    && exists parts :: SpelledBy(value, parts, nfc)
  }

  lemma SpelledOnlyBySplit(value: Text, parts: seq<Text>, nfc: Normaliser)
    requires SpelledBy(value, parts, nfc)
    ensures parts == Split(value) && value != [] && value[0] != SLASH
  {
    hide Split, Join;
    JoinSplits(parts);
    assert Clean(parts[0]);
    assert parts[0] <= Join(parts) by { JoinStarts(parts); }
    assert value[0] == parts[0][0];
  }

  lemma JoinStarts(parts: seq<Text>)
    requires parts != []
    ensures parts[0] <= Join(parts)
  {
  }

  lemma NormalizeIsExact(value: Text, nfc: Normaliser)
    ensures NormalizeZipPath(value, false, nfc) == if SafeName(value, nfc) then Some(value) else None
  {
    hide Split, Join;
    SplitJoins(value);
    var parts := Split(value);
    assert NormalForms(parts, nfc) == seq(|parts|, i requires 0 <= i < |parts| => nfc(parts[i]));
    if SafeName(value, nfc) {
      var other :| SpelledBy(value, other, nfc);
      SpelledOnlyBySplit(value, other, nfc);
    }
    if NormalizeZipPath(value, false, nfc).Some? {
      assert SpelledBy(value, parts, nfc);
    }
  }

  /** The name of an entry, without the slash that marks a folder. */
  function Bare(name: Text): Text {
    if name != [] && name[|name| - 1] == 0x2F then name[..|name| - 1] else name
  }

  predicate NamesFolder(name: Text) {
    name != [] && name[|name| - 1] == 0x2F
  }

  /**
   An entry is acceptable exactly when its name is safe, a type recorded on Unix is that of a folder or a
   regular file as its name says, it is not encrypted, and a file is stored or deflated.
   */
  lemma AcceptableIsExact(e: ZipEntry, nfc: Normaliser)
    ensures Acceptable(e, nfc)
       <==> (&& SafeName(Bare(e.fileName), nfc) && !e.encrypted
             && (e.host == 3 ==> e.fileType in {0, if NamesFolder(e.fileName) then 0x4000 else 0x8000})
             && (NamesFolder(e.fileName) || e.compression in {0, 8}))
  {
    hide SafeName, Unsafe;
    NormalizeIsExact(Bare(e.fileName), nfc);
  }

  // ---------------------------------------------------------------- files and manifest

  /** Strictly increasing indices, of exactly the entries that name no folder. */
  predicate FileIndices(entries: seq<ZipEntry>, at: seq<nat>) {
    && (forall i, j :: 0 <= i < j < |at| ==> at[i] < at[j])
    && (forall i :: 0 <= i < |at| ==> at[i] < |entries|)
    && forall k :: 0 <= k < |entries| ==> (k in at <==> !NamesFolder(entries[k].fileName))
  }

  lemma FileIndicesMore(entries: seq<ZipEntry>, before: seq<nat>)
    requires entries != [] && FileIndices(entries[..|entries| - 1], before)
    ensures var n := |entries| - 1;
            FileIndices(entries, if NamesFolder(entries[n].fileName) then before else before + [n])
  {
    hide NamesFolder;
    var n := |entries| - 1;
    assert n !in before;
    assert forall k :: 0 <= k < n ==> entries[..n][k] == entries[k];
    assert forall k :: k in before + [n] <==> k in before || k == n;
  }

  predicate Lists(entries: seq<ZipEntry>, at: seq<nat>, names: seq<Text>, files: seq<File>) {
    && |at| == |names| == |files|
    && forall i :: 0 <= i < |at| ==>
         at[i] < |entries| && names[i] == entries[at[i]].fileName && files[i] == entries[at[i]].file
  }

  lemma ListsMore(entries: seq<ZipEntry>, at: seq<nat>, names: seq<Text>, files: seq<File>)
    requires entries != [] && Lists(entries[..|entries| - 1], at, names, files)
    ensures Lists(entries, at, names, files)
    ensures var n := |entries| - 1; Lists(entries, at + [n], names + [entries[n].fileName], files + [entries[n].file])
  {
  }

  lemma FilesSnoc(entries: seq<ZipEntry>)
    requires entries != []
    ensures var n := |entries| - 1;
            && FileNames(entries)
               == FileNames(entries[..n]) + (if NamesFolder(entries[n].fileName) then [] else [entries[n].fileName])
            && FileContents(entries)
               == FileContents(entries[..n]) + (if NamesFolder(entries[n].fileName) then [] else [entries[n].file])
  {
  }

  /** The files are the entries that name no folder, in order. */
  lemma {:induction false} FilesAreEntries(entries: seq<ZipEntry>) returns (at: seq<nat>)
    ensures FileIndices(entries, at) && Lists(entries, at, FileNames(entries), FileContents(entries))
  {
    hide FileIndices, Lists, FileNames, FileContents, NamesFolder;
    if entries == [] {
      at := [];
      NoFiles();
    } else {
      var n := |entries| - 1;
      var before := FilesAreEntries(entries[..n]);
      FileIndicesMore(entries, before);
      FilesSnoc(entries);
      ListsMore(entries, before, FileNames(entries[..n]), FileContents(entries[..n]));
      if NamesFolder(entries[n].fileName) {
        at := before;
        assert FileNames(entries[..n]) + [] == FileNames(entries[..n]);
        assert FileContents(entries[..n]) + [] == FileContents(entries[..n]);
      } else {
        at := before + [n];
      }
    }
  }

  lemma NoFiles()
    ensures FileIndices([], []) && Lists([], [], FileNames([]), FileContents([]))
  {
  }

  predicate Names(manifest: seq<ManifestEntry>, path: Text) {
    exists i :: 0 <= i < |manifest| && manifest[i].path == path
  }

  lemma NamesSnoc(manifest: seq<ManifestEntry>, path: Text)
    requires manifest != []
    ensures var n := |manifest| - 1; Names(manifest, path) <==> manifest[n].path == path || Names(manifest[..n], path)
  {
    var n := |manifest| - 1;
    assert forall i :: 0 <= i < n ==> manifest[..n][i] == manifest[i];
  }

  /** The map holds exactly the paths the manifest names. */
  lemma {:induction false} ManifestPaths(manifest: seq<ManifestEntry>, path: Text)
    ensures path in ManifestFiles(manifest) <==> Names(manifest, path)
  {
    hide Names;
    if manifest == [] {
      assert !Names(manifest, path) by { NothingNamed(path); }
    } else {
      NamesSnoc(manifest, path);
      ManifestPaths(manifest[..|manifest| - 1], path);
    }
  }

  lemma NothingNamed(path: Text)
    ensures !Names([], path)
  {
  }

  /** For each path the manifest's last entry counts. */
  lemma {:induction false} ManifestFileOf(manifest: seq<ManifestEntry>, i: nat)
    requires i < |manifest| && forall j :: i < j < |manifest| ==> manifest[j].path != manifest[i].path
    ensures manifest[i].path in ManifestFiles(manifest)
    ensures ManifestFiles(manifest)[manifest[i].path].size == manifest[i].sizeBytes
    ensures ManifestFiles(manifest)[manifest[i].path].sha256 == manifest[i].sha256
  {
    var n := |manifest| - 1;
    if i < n {
      ManifestFileOf(manifest[..n], i);
    }
  }

  // ---------------------------------------------------------------- refusals

  /** Up to here every file is the manifest's, the total fits, and each has a place of its own. */
  predicate FineBefore(paths: seq<Text>, files: seq<File>, expected: Files, expanded: nat, written: Files, k: nat)
    requires k <= |paths| == |files|
  {
    && Faithful(paths[..k], files[..k], expected) && expanded + TotalSize(files[..k]) <= 104_857_600
    && Placeable(paths[..k]) && NoClash(paths[..k], written)
  }

  lemma {:induction false} TotalSizeSnoc(files: seq<File>, k: nat)
    requires k < |files|
    ensures TotalSize(files[..k + 1]) == TotalSize(files[..k]) + files[k].size
  {
    if k > 0 {
      TotalSizeSnoc(files[1..], k - 1);
      assert files[..k + 1][1..] == files[1..][..k] && files[..k][1..] == files[1..][..k - 1];
    } else {
      assert files[..1][1..] == [] && files[..0] == [];
    }
  }

  /** The first file that is not fine decides the refusal: first its content and the total, then its place. */
  lemma {:induction false} ExamineComplains(
      paths: seq<Text>, files: seq<File>, expected: Files, expanded: nat, written: Files, k: nat)
    requires k < |paths| == |files| && AllIn(paths, expected.Keys) && Distinct(paths)
    requires FineBefore(paths, files, expected, expanded, written, k)
    ensures files[k] != expected[paths[k]] || expanded + TotalSize(files[..k + 1]) > 104_857_600 ==>
              Examine(paths, files, expected, expanded, written) == Err(ManifestMismatch)
    ensures files[k] == expected[paths[k]] && expanded + TotalSize(files[..k + 1]) <= 104_857_600
            && (StartsWithDots(paths[k]) || Clashes(paths[k], written)
                || exists i :: 0 <= i < k && (Under(paths[i], paths[k]) || Under(paths[k], paths[i]))) ==>
              Examine(paths, files, expected, expanded, written) == Err(UnsafeArchive)
    decreases |paths|
  {
    hide Placeable, NoClash, Clashes, StartsWithDots, Under, Faithful, TotalSize;
    TotalSizeSnoc(files, k);
    if k == 0 {
      assert files[..0] == [];
      NoTotal();
    } else {
      var file, next := files[0], written[paths[0] := files[0]];
      assert paths[..k][1..] == paths[1..][..k - 1] && files[..k][1..] == files[1..][..k - 1];
      assert paths[..k][0] == paths[0] && files[..k][0] == files[0];
      FaithfulStep(paths[..k], files[..k], expected);
      assert Distinct(paths[..k]);
      NoClashStep(paths[..k], written, file);
      TotalSizeStep(files[..k]);
      TotalSizeStep(files[..k + 1]);
      assert files[..k + 1][1..] == files[1..][..k] && files[..k + 1][0] == file;
      assert FineBefore(paths[1..], files[1..], expected, expanded + file.size, next, k - 1);
      assert paths[1..][k - 1] == paths[k] && files[1..][k - 1] == files[k];
      ClashesWithMore(paths[k], written, paths[0], file);
      assert forall i :: 0 < i < k ==> paths[1..][i - 1] == paths[i];
      ExamineComplains(paths[1..], files[1..], expected, expanded + file.size, next, k - 1);
    }
  }

  lemma NoTotal()
    ensures TotalSize([]) == 0
  {
  }

  lemma TotalSizeStep(files: seq<File>)
    requires files != []
    ensures TotalSize(files) == files[0].size + TotalSize(files[1..])
  {
  }

  lemma ClashesWithMore(path: Text, written: Files, other: Text, file: File)
    requires path != other
    ensures Clashes(path, written[other := file]) <==>
              Clashes(path, written) || Under(other, path) || Under(path, other)
  {
    hide Under;
    var more := written[other := file];
    if Under(other, path) || Under(path, other) {
      assert other in more;
    }
    if Clashes(path, written) {
      var w :| w in written && (w == path || Under(w, path) || Under(path, w));
      assert w in more;
    }
  }

  /** An archive that cannot be opened or has an unacceptable entry is unsafe; one that does not read is a mismatch. */
  lemma UnpackRefuses(zip: Option<seq<ZipEntry>>, manifest: seq<ManifestEntry>, nfc: Normaliser, written: Files)
    requires manifest != []
    ensures zip.None? || (exists i :: 0 <= i < |zip.value| && !Acceptable(zip.value[i], nfc)) ==>
              Unpack(zip, manifest, nfc, written) == Err(UnsafeArchive)
    ensures zip.Some? && (forall i :: 0 <= i < |zip.value| ==> Acceptable(zip.value[i], nfc))
            && (forall logical :: !Reads(FileNames(zip.value), ManifestFiles(manifest).Keys, logical)) ==>
              Unpack(zip, manifest, nfc, written) == Err(ManifestMismatch)
  {
    hide Acceptable, Reads, ManifestFiles, MatchFiles, Examine;
    if zip.Some? && forall i :: 0 <= i < |zip.value| ==> Acceptable(zip.value[i], nfc) {
      assert manifest[|manifest| - 1].path in ManifestFiles(manifest) by { LastNamed(manifest); }
      NamesAreRooted(zip.value, nfc);
      MatchFilesReads(FileNames(zip.value), ManifestFiles(manifest).Keys);
    }
  }
}
