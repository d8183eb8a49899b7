/**
 Matching the files of a Skill archive with its signed manifest, as
 packages/agent-cli/src/workflow-materializer.ts does before anything is published: entry names are
 checked, one common top folder may be removed, and every file must be the one the manifest names.
 */
module ArchiveMatching {
  import opened Common
  import opened Utf16

  const MAX_PATH: nat := 1_024
  const MAX_EXPANDED_BYTES: nat := 104_857_600

  datatype Code =
    | WorkspaceMarkerMismatch | ArchiveTooLarge | ArchiveHashMismatch
    | UnsafeArchive | ManifestMismatch | PublishFailed
    | SystemError   // anything thrown before the publication starts

  /** A file stands for its bytes through its size and digest. */
  datatype File = File(size: nat, sha256: string)

  type Files = map<Text, File>

  /** Unicode normalisation (NFC), which this model does not define. */
  type Normaliser = Text -> Text

  datatype ManifestEntry = ManifestEntry(path: Text, sizeBytes: nat, sha256: string)

  datatype ZipEntry = ZipEntry(
    fileName: Text, host: nat, fileType: nat, encrypted: bool, compression: nat, file: File)

  // ---------------------------------------------------------------- entry names

  function Split(t: Text): (parts: seq<Text>)
    ensures |parts| > 0
    decreases |t|
  {
    var i := IndexOf(t, SLASH);
    if i == |t| then [t] else [t[..i]] + Split(t[i + 1..])
  }

  function Join(parts: seq<Text>): Text {
    if parts == [] then []
    else if |parts| == 1 then parts[0]
    else parts[0] + [SLASH] + Join(parts[1..])
  }

  lemma JoinCons(head: Text, tail: seq<Text>)
    requires tail != []
    ensures Join([head] + tail) == head + [SLASH] + Join(tail)
  {
  }

  lemma {:induction false} SplitJoins(t: Text)
    ensures Join(Split(t)) == t
    ensures forall i :: 0 <= i < |Split(t)| ==> SLASH !in Split(t)[i]
    decreases |t|
  {
    hide Join;
    var i := IndexOf(t, SLASH);
    if i < |t| {
      var head, tail := t[..i], t[i + 1..];
      SplitJoins(tail);
      JoinCons(head, Split(tail));
      assert t == head + [SLASH] + tail;
    } else {
      JoinOne(t);
    }
  }

  lemma JoinOne(part: Text)
    ensures Join([part]) == part
  {
  }

  predicate Traversal(part: Text) {
    part == [] || part == [DOT] || part == [DOT, DOT]
  }

  predicate Traverses(path: Text) {
    exists i :: 0 <= i < |Split(path)| && Traversal(Split(path)[i])
  }

  predicate Letter(u: Unit) {
    0x41 <= u <= 0x5A || 0x61 <= u <= 0x7A
  }

  predicate Unsafe(value: Text) {
    || value == [] || value[0] == SLASH
    || (|value| >= 2 && Letter(value[0]) && value[1] == 0x3A)
    || BACKSLASH in value || 0 in value
    || Traverses(value)
  }

  function NormalizeZipPath(name: Text, directory: bool, nfc: Normaliser): Option<Text> {
    var value := if directory && name != [] && name[|name| - 1] == SLASH then name[..|name| - 1] else name;
    if Unsafe(value) then None
    else
      var parts := Split(value);
      var normalized := Join(seq(|parts|, i requires 0 <= i < |parts| => nfc(parts[i])));
      if normalized != value || |normalized| > MAX_PATH then None else Some(normalized)
  }

  predicate DirectoryName(name: Text) {
    name != [] && name[|name| - 1] == SLASH
  }

  /** Only entries written on Unix carry a file type, and it must fit. */
  predicate Regular(e: ZipEntry, directory: bool) {
    e.host == 3 ==> e.fileType == 0 || e.fileType == (if directory then 0x4000 else 0x8000)
  }

  predicate Acceptable(e: ZipEntry, nfc: Normaliser) {
    var directory := DirectoryName(e.fileName);
    && NormalizeZipPath(e.fileName, directory, nfc).Some? && Regular(e, directory)
    && !e.encrypted && (directory || e.compression == 0 || e.compression == 8)
  }

  // ---------------------------------------------------------------- child paths

  /** path.resolve below a directory given by its segments. */
  function Resolved(base: seq<Text>, parts: seq<Text>): seq<Text>
    decreases |parts|
  {
    if parts == [] then base
    else if parts[0] == [] || parts[0] == [DOT] then Resolved(base, parts[1..])
    else if parts[0] == [DOT, DOT] then
      Resolved(if base == [] then [] else base[..|base| - 1], parts[1..])
    else Resolved(base + [parts[0]], parts[1..])
  }

  predicate StartsWithDots(t: Text) {
    |t| >= 2 && t[0] == DOT && t[1] == DOT
  }

  /** The target below a root, unless the relative way there is empty or starts with two dots. */
  function Child(root: seq<Text>, relative: Text): Option<seq<Text>> {
    var base := if relative != [] && relative[0] == SLASH then [] else root;
    var candidate := Resolved(base, Split(relative));
    if root < candidate && !StartsWithDots(candidate[|root|]) then Some(candidate) else None
  }

  lemma {:induction false} ResolvedAppends(base: seq<Text>, parts: seq<Text>)
    requires forall i :: 0 <= i < |parts| ==> !Traversal(parts[i])
    ensures Resolved(base, parts) == base + parts
    decreases |parts|
  {
    if parts != [] {
      ResolvedAppends(base + [parts[0]], parts[1..]);
      assert base + parts == base + [parts[0]] + parts[1..];
    }
  }

  /**
   A checked name is written strictly below its root, at the segments it spells. The only checked
   names that are refused are those that start with two dots.
   */
  lemma ChildOfCheckedName(root: seq<Text>, path: Text)
    requires !Traverses(path)
    ensures Child(root, path)
         == if |path| >= 2 && path[0] == 0x2E && path[1] == 0x2E then None else Some(root + Split(path))
  {
    var parts := Split(path);
    ResolvedAppends(root, parts);
    assert root < root + parts && (root + parts)[|root|] == parts[0];
    FirstPart(path);
  }

  lemma FirstPart(path: Text)
    requires !Traverses(path)
    ensures StartsWithDots(Split(path)[0]) <==> StartsWithDots(path)
  {
  }

  lemma CheckedNamesDoNotCollide(root: seq<Text>, a: Text, b: Text)
    requires !Traverses(a) && !Traverses(b) && a != b && Child(root, a).Some? && Child(root, b).Some?
    ensures Child(root, a) != Child(root, b)
  {
    ChildOfCheckedName(root, a);
    ChildOfCheckedName(root, b);
    SplitJoins(a);
    SplitJoins(b);
    assert (root + Split(a))[|root|..] == Split(a);
    assert (root + Split(b))[|root|..] == Split(b);
  }

  // ---------------------------------------------------------------- wrapper folder

  function TopFolder(path: Text): Text {
    path[..IndexOf(path, SLASH)]
  }

  predicate Under(wrapper: Text, path: Text) {
    |path| > |wrapper| && path[..|wrapper|] == wrapper && path[|wrapper|] == SLASH
  }

  /** Every path lies under the folder. */
  predicate Wrapped(wrapper: Text, paths: seq<Text>) {
    forall i :: 0 <= i < |paths| ==> Under(wrapper, paths[i])
  }

  function Unwrapped(wrapper: Text, paths: seq<Text>): (inner: seq<Text>)
    requires Wrapped(wrapper, paths)
    ensures |inner| == |paths|
    ensures forall i :: 0 <= i < |paths| ==>
              inner[i] == paths[i][|wrapper| + 1..] && paths[i] == wrapper + [0x2F] + inner[i]
  {
    seq(|paths|, i requires 0 <= i < |paths| => paths[i][|wrapper| + 1..])
  }

  predicate AllIn(paths: seq<Text>, expected: set<Text>) {
    forall i :: 0 <= i < |paths| ==> paths[i] in expected
  }

  /** The empty text for the names as they are, a folder to remove, or None for a mismatch. */
  function ResolveWrapper(actual: seq<Text>, expected: set<Text>): Option<Text> {
    if AllIn(actual, expected) then Some([])
    else
      var wrapper := TopFolder(actual[0]);
      if exists i :: 0 <= i < |actual| && TopFolder(actual[i]) != wrapper then None
      else if Wrapped(wrapper, actual) && AllIn(Unwrapped(wrapper, actual), expected) then Some(wrapper)
      else None
  }

  predicate Distinct(paths: seq<Text>) {
    forall i, j :: 0 <= i < j < |paths| ==> paths[i] != paths[j]
  }

  /** The logical file list, or None for a mismatch. */
  function MatchFiles(actual: seq<Text>, expected: set<Text>): (r: Option<seq<Text>>)
    ensures r.Some? ==> |r.value| == |actual| && AllIn(r.value, expected)
  {
    var prefix := ResolveWrapper(actual, expected);
    if prefix.None? then None
    else
      var logical := if prefix.value != [] && Wrapped(prefix.value, actual) then Unwrapped(prefix.value, actual)
        else actual;
      if |logical| != |expected| || !Distinct(logical) || !AllIn(logical, expected) then None else Some(logical)
  }

  /** The list names every expected path once and nothing else. */
  predicate Permutes(paths: seq<Text>, expected: set<Text>) {
    Distinct(paths) && (set p | p in paths) == expected
  }

  /** The names with one common top folder removed are a permutation. */
  predicate WrappedPermutes(wrapper: Text, paths: seq<Text>, expected: set<Text>) {
    && wrapper != [] && SLASH !in wrapper && Wrapped(wrapper, paths)
    && Permutes(Unwrapped(wrapper, paths), expected)
  }

  lemma {:induction false} DistinctSize(paths: seq<Text>)
    requires Distinct(paths)
    ensures |set p | p in paths| == |paths|
  {
    if paths != [] {
      var n := |paths| - 1;
      var init := set p | p in paths[..n];
      DistinctSize(paths[..n]);
      assert paths[n] !in init;
      assert (set p | p in paths) == init + {paths[n]};
    }
  }

  lemma {:induction false} SubsetOfSameSize(a: set<Text>, b: set<Text>)
    requires a <= b && |a| == |b|
    ensures a == b
  {
    if a != b {
      var x :| x in b && x !in a;
      SizeOfSubset(a, b - {x});
    }
  }

  lemma {:induction false} SizeOfSubset(a: set<Text>, b: set<Text>)
    requires a <= b
    ensures |a| <= |b|
  {
    if a != {} {
      var x :| x in a;
      SizeOfSubset(a - {x}, b - {x});
    }
  }

  /** The three tests the code makes amount to being a permutation. */
  lemma TestsArePermutation(paths: seq<Text>, expected: set<Text>)
    ensures |paths| == |expected| && Distinct(paths) && AllIn(paths, expected) <==> Permutes(paths, expected)
  {
    var all := set p | p in paths;
    if Distinct(paths) {
      DistinctSize(paths);
      if AllIn(paths, expected) && |paths| == |expected| {
        SubsetOfSameSize(all, expected);
      }
      if all == expected {
        forall i | 0 <= i < |paths| ensures paths[i] in expected { assert paths[i] in all; }
      }
    }
  }

  lemma {:induction false} LongestIndex(paths: seq<Text>) returns (k: nat)
    requires paths != []
    ensures k < |paths| && forall i :: 0 <= i < |paths| ==> |paths[i]| <= |paths[k]|
  {
    var n := |paths| - 1;
    if n == 0 {
      k := 0;
    } else {
      k := LongestIndex(paths[..n]);
      assert forall i :: 0 <= i < n ==> |paths[..n][i]| == |paths[i]|;
      if |paths[n]| > |paths[k]| {
        k := n;
      }
    }
  }

  /** No non-empty path set equals itself under a prefix. */
  lemma AtMostOneReading(wrapper: Text, paths: seq<Text>, expected: set<Text>)
    requires paths != [] && WrappedPermutes(wrapper, paths, expected)
    ensures !((set p | p in paths) == expected)
  {
    var inner, all := Unwrapped(wrapper, paths), set p | p in paths;
    var k := LongestIndex(paths);
    assert paths[k] in all;
    assert paths[k] !in inner by {
      assert forall j :: 0 <= j < |inner| ==> |inner[j]| < |paths[j]|;
    }
    assert paths[k] !in (set p | p in inner);
  }

  lemma WrapperIsTopFolder(wrapper: Text, path: Text)
    requires Under(wrapper, path) && SLASH !in wrapper
    ensures TopFolder(path) == wrapper
  {
  }

  /** A name check has passed, so no name starts with a slash. */
  predicate Rooted(paths: seq<Text>) {
    forall i :: 0 <= i < |paths| ==> paths[i] != [] && paths[i][0] != SLASH
  }

  lemma WrapperFound(wrapper: Text, actual: seq<Text>, expected: set<Text>)
    requires actual != [] && WrappedPermutes(wrapper, actual, expected)
    ensures ResolveWrapper(actual, expected) == Some(wrapper)
    ensures MatchFiles(actual, expected) == Some(Unwrapped(wrapper, actual))
  {
    var inner := Unwrapped(wrapper, actual);
    TestsArePermutation(inner, expected);
    if AllIn(actual, expected) {
      assert Distinct(actual) by {
        forall i, j | 0 <= i < j < |actual| ensures actual[i] != actual[j] { assert inner[i] != inner[j]; }
      }
      TestsArePermutation(actual, expected);
      AtMostOneReading(wrapper, actual, expected);
      assert false;
    }
    forall i | 0 <= i < |actual|
      ensures TopFolder(actual[i]) == wrapper
    {
      WrapperIsTopFolder(wrapper, actual[i]);
    }
  }

  /**
   The file list is accepted exactly when it, or it with one common top folder removed, is a
   permutation of the manifest's paths, and the result is that permutation.
   */
  lemma MatchingIsExact(actual: seq<Text>, expected: set<Text>)
    requires Rooted(actual) && expected != {}
    ensures MatchFiles(actual, expected).Some?
       <==> Permutes(actual, expected) || exists wrapper :: WrappedPermutes(wrapper, actual, expected)
    ensures Permutes(actual, expected) ==> MatchFiles(actual, expected) == Some(actual)
    ensures forall wrapper :: WrappedPermutes(wrapper, actual, expected) ==>
              MatchFiles(actual, expected) == Some(Unwrapped(wrapper, actual)) && !Permutes(actual, expected)
  {
    TestsArePermutation(actual, expected);
    forall wrapper | WrappedPermutes(wrapper, actual, expected)
      ensures MatchFiles(actual, expected) == Some(Unwrapped(wrapper, actual)) && !Permutes(actual, expected)
    {
      NotEmpty(Unwrapped(wrapper, actual), expected);
      AtMostOneReading(wrapper, actual, expected);
      WrapperFound(wrapper, actual, expected);
    }
    if MatchFiles(actual, expected).Some? {
      MatchedIsReading(actual, expected);
    }
  }

  lemma NotEmpty(paths: seq<Text>, expected: set<Text>)
    requires Permutes(paths, expected) && expected != {}
    ensures paths != []
  {
  }

  lemma MatchedIsReading(actual: seq<Text>, expected: set<Text>)
    requires Rooted(actual) && expected != {} && MatchFiles(actual, expected).Some?
    ensures Permutes(actual, expected) || exists wrapper :: WrappedPermutes(wrapper, actual, expected)
  {
    var prefix := ResolveWrapper(actual, expected).value;
    if prefix == [] {
      TestsArePermutation(actual, expected);
    } else {
      TestsArePermutation(Unwrapped(prefix, actual), expected);
      assert SLASH !in prefix;
      assert WrappedPermutes(prefix, actual, expected);
    }
  }

  // ---------------------------------------------------------------- contents

  /** The manifest as a map; a repeated path keeps its last entry. */
  function ManifestFiles(manifest: seq<ManifestEntry>): Files {
    if manifest == [] then map[]
    else
      var e := manifest[|manifest| - 1];
      ManifestFiles(manifest[..|manifest| - 1])[e.path := File(e.sizeBytes, e.sha256)]
  }

  /** The regular files of an archive; an accepted name is its own normal form. */
  function FileNames(entries: seq<ZipEntry>): seq<Text> {
    if entries == [] then []
    else
      var last := entries[|entries| - 1];
      FileNames(entries[..|entries| - 1]) + if DirectoryName(last.fileName) then [] else [last.fileName]
  }

  function FileContents(entries: seq<ZipEntry>): (files: seq<File>)
    ensures |files| == |FileNames(entries)|
  {
    if entries == [] then []
    else
      var last := entries[|entries| - 1];
      FileContents(entries[..|entries| - 1]) + if DirectoryName(last.fileName) then [] else [last.file]
  }

  /** A file cannot be created where one is, below a file, or where a directory is. */
  predicate Clashes(path: Text, written: Files) {
    exists other :: other in written && (other == path || Under(other, path) || Under(path, other))
  }

  /** The loop over the matched files: what has been written in the end, or the first complaint. */
  function Examine(
      paths: seq<Text>, files: seq<File>, expected: Files, expanded: nat, written: Files): Result<Files, Code>
    requires |paths| == |files| && AllIn(paths, expected.Keys)
    decreases |paths|
  {
    if paths == [] then Ok(written)
    else if files[0] != expected[paths[0]] || expanded + files[0].size > MAX_EXPANDED_BYTES then Err(ManifestMismatch)
    else if StartsWithDots(paths[0]) || Clashes(paths[0], written) then Err(UnsafeArchive)
    else
      Examine(paths[1..], files[1..], expected, expanded + files[0].size, written[paths[0] := files[0]])
  }

  /** What an archive leaves in a directory for a manifest, or the code of the refusal. */
  function Unpack(
      zip: Option<seq<ZipEntry>>, manifest: seq<ManifestEntry>, nfc: Normaliser, written: Files): Result<Files, Code>
  {
    if zip.None? || exists i :: 0 <= i < |zip.value| && !Acceptable(zip.value[i], nfc) then Err(UnsafeArchive)
    else
      var expected := ManifestFiles(manifest);
      var logical := MatchFiles(FileNames(zip.value), expected.Keys);
      if logical.None? then Err(ManifestMismatch)
      else Examine(logical.value, FileContents(zip.value), expected, 0, written)
  }

  function TotalSize(files: seq<File>): nat {
    if files == [] then 0 else files[0].size + TotalSize(files[1..])
  }

  /** No file lies below another, and none starts with two dots. */
  predicate Placeable(paths: seq<Text>) {
    && (forall i :: 0 <= i < |paths| ==> !(|paths[i]| >= 2 && paths[i][0] == 0x2E && paths[i][1] == 0x2E))
    && (forall i, j :: 0 <= i < |paths| && 0 <= j < |paths| ==> !Under(paths[i], paths[j]))
  }

  predicate Faithful(paths: seq<Text>, files: seq<File>, expected: Files) {
    && |paths| == |files|
    && forall i :: 0 <= i < |paths| ==> paths[i] in expected && files[i] == expected[paths[i]]
  }

  predicate NoClash(paths: seq<Text>, written: Files) {
    forall i :: 0 <= i < |paths| ==> !Clashes(paths[i], written)
  }

  lemma NoClashStep(paths: seq<Text>, written: Files, file: File)
    requires paths != [] && Distinct(paths)
    ensures Placeable(paths) && NoClash(paths, written)
       <==> (&& !StartsWithDots(paths[0]) && !Clashes(paths[0], written)
             && Placeable(paths[1..]) && NoClash(paths[1..], written[paths[0] := file]))
  {
  }

  /** The loop succeeds exactly when every file is the manifest's and has a place of its own. */
  lemma {:induction false} ExamineIsExact(
      paths: seq<Text>, files: seq<File>, expected: Files, expanded: nat, written: Files)
    requires |paths| == |files| && AllIn(paths, expected.Keys) && Distinct(paths) && expanded <= MAX_EXPANDED_BYTES
    ensures Examine(paths, files, expected, expanded, written).Ok?
       <==> (&& Faithful(paths, files, expected) && expanded + TotalSize(files) <= MAX_EXPANDED_BYTES
             && Placeable(paths) && NoClash(paths, written))
    ensures Examine(paths, files, expected, expanded, written).Ok? ==>
              var tree := Examine(paths, files, expected, expanded, written).value;
              && tree.Keys == written.Keys + (set p | p in paths)
              && forall p :: p in tree ==> tree[p] == if p in paths then expected[p] else written[p]
    decreases |paths|
  {
    hide Placeable, NoClash, Clashes, StartsWithDots, Under;
    if paths == [] {
      assert Placeable(paths) && NoClash(paths, written) by { NothingClashes(paths, written); }
    } else {
      NoClashStep(paths, written, files[0]);
      FaithfulStep(paths, files, expected);
      assert Distinct(paths[1..]);
      assert TotalSize(files) == files[0].size + TotalSize(files[1..]);
      if files[0] == expected[paths[0]] && expanded + files[0].size <= MAX_EXPANDED_BYTES {
        ExamineIsExact(paths[1..], files[1..], expected, expanded + files[0].size, written[paths[0] := files[0]]);
      }
      assert forall p :: p in paths <==> p == paths[0] || p in paths[1..];
    }
  }

  lemma NothingClashes(paths: seq<Text>, written: Files)
    requires paths == []
    ensures Placeable(paths) && NoClash(paths, written)
  {
  }

  lemma FaithfulStep(paths: seq<Text>, files: seq<File>, expected: Files)
    requires paths != [] && |paths| == |files|
    ensures Faithful(paths, files, expected)
       <==> (&& paths[0] in expected && files[0] == expected[paths[0]]
             && Faithful(paths[1..], files[1..], expected))
  {
  }

  /** The file list as it is, or with the common top folder removed. */
  ghost predicate Reads(actual: seq<Text>, expected: set<Text>, logical: seq<Text>) {
    || (logical == actual && Permutes(actual, expected))
    || exists wrapper :: WrappedPermutes(wrapper, actual, expected) && logical == Unwrapped(wrapper, actual)
  }

  /**
   An archive is unpacked into an empty directory exactly when each entry is acceptable, the files
   read as a permutation of the manifest, each is the one the manifest names, they fit the bound and
   none stands in the way of another; and then it leaves exactly the manifest's files.
   */
  lemma UnpackIsExact(zip: Option<seq<ZipEntry>>, manifest: seq<ManifestEntry>, nfc: Normaliser)
    requires manifest != []
    ensures Unpack(zip, manifest, nfc, map[]).Ok?
       <==> (&& zip.Some? && (forall i :: 0 <= i < |zip.value| ==> Acceptable(zip.value[i], nfc))
             && TotalSize(FileContents(zip.value)) <= 104_857_600
             && exists logical ::
                  && Reads(FileNames(zip.value), ManifestFiles(manifest).Keys, logical)
                  && Faithful(logical, FileContents(zip.value), ManifestFiles(manifest))
                  && Placeable(logical))
    ensures Unpack(zip, manifest, nfc, map[]).Ok? ==> Unpack(zip, manifest, nfc, map[]).value == ManifestFiles(manifest)
  {
    hide Acceptable, Reads, Faithful, Placeable, Examine, MatchFiles, ManifestFiles, TotalSize, NoClash;
    if zip.Some? && forall i :: 0 <= i < |zip.value| ==> Acceptable(zip.value[i], nfc) {
      var expected := ManifestFiles(manifest);
      var actual := FileNames(zip.value);
      assert manifest[|manifest| - 1].path in expected by { LastNamed(manifest); }
      NamesAreRooted(zip.value, nfc);
      MatchFilesReads(actual, expected.Keys);
      var logical := MatchFiles(actual, expected.Keys);
      if logical.Some? {
        ReadingPermutes(actual, expected.Keys, logical.value);
        ExamineIsExact(logical.value, FileContents(zip.value), expected, 0, map[]);
        NothingWritten(logical.value);
      }
    }
  }

  lemma NothingWritten(paths: seq<Text>)
    ensures NoClash(paths, map[])
  {
  }

  lemma LastNamed(manifest: seq<ManifestEntry>)
    requires manifest != []
    ensures manifest[|manifest| - 1].path in ManifestFiles(manifest)
  {
  }

  lemma {:induction false} NamesAreRooted(entries: seq<ZipEntry>, nfc: Normaliser)
    requires forall i :: 0 <= i < |entries| ==> Acceptable(entries[i], nfc)
    ensures Rooted(FileNames(entries))
  {
    if entries != [] {
      NamesAreRooted(entries[..|entries| - 1], nfc);
      assert Acceptable(entries[|entries| - 1], nfc);
    }
  }

  lemma MatchFilesReads(actual: seq<Text>, expected: set<Text>)
    requires Rooted(actual) && expected != {}
    ensures MatchFiles(actual, expected).Some? ==> Reads(actual, expected, MatchFiles(actual, expected).value)
    ensures forall logical :: Reads(actual, expected, logical) ==> MatchFiles(actual, expected) == Some(logical)
  {
    hide MatchFiles, Permutes, WrappedPermutes;
    MatchingIsExact(actual, expected);
  }

  lemma ReadingPermutes(actual: seq<Text>, expected: set<Text>, logical: seq<Text>)
    requires Reads(actual, expected, logical)
    ensures |logical| == |actual| && Distinct(logical) && (set p | p in logical) == expected
  {
  }
}
