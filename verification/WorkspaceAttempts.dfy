/**
 Preparing a Task Workspace, as apps/runner-daemon/src/workspace-materializer.ts does: clone into a
 directory of the attempt's own, verify it, and publish it by one rename. A commit stands for its
 whole history, as its hash does in Git. Every step may succeed, throw, or be the process's last.
 */
module WorkspaceAttempts {
  import opened Common

  datatype Commit = Commit(payload: string, parents: seq<Commit>)

  /** A branch name, or None for a detached HEAD. */
  datatype Repo = Repo(branch: Option<string>, head: Commit, objects: set<Commit>)

  datatype Marker = Marker(workspaceId: string, baseCommit: Commit, branchName: string)

  /** A missing repository or an unreadable marker is None. */
  datatype Directory = Directory(repo: Option<Repo>, marker: Option<Marker>)

  datatype Name = Final(workspaceId: string) | Temporary(workspaceId: string, attemptId: string)

  type Entries = map<Name, Directory>

  datatype Claim = Claim(
    workspaceId: string, attemptId: string, attemptSequence: nat, workspaceRef: string,
    baseCommit: Commit, branchName: string)

  datatype Remote = Remote(branch: string, branches: map<string, Commit>, cloned: set<Commit>, commits: set<Commit>)

  datatype Code =
    | WorkspaceRefInvalid | PublishTargetExists | BranchCollision | GitFailed
    | VerificationFailed | RenameFailed | WorkspaceMissing

  datatype Report = Report(attemptSequence: nat, workspaceRef: string, baseCommit: Commit, branchName: string)

  datatype Outcome = Succeeded(report: Report) | Failed(code: Code) | Crashed

  datatype Ready = Ready(baseCommit: Commit, currentCommit: Commit, branchName: string)

  const REF_PREFIX: string := "host-task-workspace:"

  // ---------------------------------------------------------------- history

  /** git merge-base --is-ancestor: a commit is its own ancestor. */
  predicate Descends(c: Commit, base: Commit)
    decreases c
  {
    c == base || exists i :: 0 <= i < |c.parents| && Descends(c.parents[i], base)
  }

  /** A line of parents from one commit back to another. */
  ghost predicate Lineage(path: seq<Commit>, c: Commit, base: Commit) {
    && path != [] && path[0] == c && path[|path| - 1] == base
    && forall i :: 0 <= i < |path| - 1 ==> path[i + 1] in path[i].parents
  }

  lemma {:induction false} LineageDescends(path: seq<Commit>, c: Commit, base: Commit)
    requires Lineage(path, c, base)
    ensures Descends(c, base)
    decreases |path|
  {
    if |path| > 1 {
      assert path[0 + 1] in path[0].parents;
      var i :| 0 <= i < |c.parents| && c.parents[i] == path[1];
      assert Lineage(path[1..], path[1], base) by {
        assert forall k :: 0 <= k < |path| - 2 ==>
                 path[1..][k] == path[k + 1] && path[k + 1 + 1] in path[k + 1].parents;
      }
      LineageDescends(path[1..], path[1], base);
    }
  }

  /** A commit descends from another exactly when some line of parents leads there. */
  lemma {:induction false} DescendsIffLineage(c: Commit, base: Commit)
    ensures Descends(c, base) <==> exists path :: Lineage(path, c, base)
    decreases c
  {
    if Descends(c, base) {
      if c == base {
        assert Lineage([c], c, base);
      } else {
        var i :| 0 <= i < |c.parents| && Descends(c.parents[i], base);
        DescendsIffLineage(c.parents[i], base);
        var path :| Lineage(path, c.parents[i], base);
        assert Lineage([c] + path, c, base);
      }
    }
    if path :| Lineage(path, c, base) {
      LineageDescends(path, c, base);
    }
  }

  function Size(c: Commit): nat
    decreases c
  {
    1 + Sizes(c.parents)
  }

  function Sizes(cs: seq<Commit>): nat
    decreases cs
  {
    if cs == [] then 0 else Size(cs[0]) + Sizes(cs[1..])
  }

  lemma {:induction false} ParentIsSmaller(cs: seq<Commit>, i: nat)
    requires i < |cs|
    ensures Size(cs[i]) <= Sizes(cs)
  {
    if i > 0 {
      ParentIsSmaller(cs[1..], i - 1);
    }
  }

  lemma {:induction false} AncestorIsSmaller(c: Commit, base: Commit)
    requires Descends(c, base)
    ensures Size(base) <= Size(c)
    decreases c
  {
    if c != base {
      var i :| 0 <= i < |c.parents| && Descends(c.parents[i], base);
      ParentIsSmaller(c.parents, i);
      AncestorIsSmaller(c.parents[i], base);
    }
  }

  lemma {:induction false} DescendsIsTransitive(a: Commit, b: Commit, c: Commit)
    requires Descends(a, b) && Descends(b, c)
    ensures Descends(a, c)
    decreases a
  {
    if a != b {
      var i :| 0 <= i < |a.parents| && Descends(a.parents[i], b);
      DescendsIsTransitive(a.parents[i], b, c);
    }
  }

  // ---------------------------------------------------------------- ready workspaces

  predicate HexOrDash(c: char) {
    '0' <= c <= '9' || 'a' <= c <= 'f' || 'A' <= c <= 'F' || c == '-'
  }

  predicate IsId(id: string) {
    |id| == 36 && forall i :: 0 <= i < |id| ==> HexOrDash(id[i])
  }

  /** The Workspace a reference names. */
  function Named(workspaceRef: string): Option<string> {
    var n := |REF_PREFIX|;
    if |workspaceRef| == n + 36 && workspaceRef[..n] == REF_PREFIX && IsId(workspaceRef[n..]) then
      Some(workspaceRef[n..])
    else None
  }

  predicate ClaimValid(c: Claim) {
    IsId(c.workspaceId) && IsId(c.attemptId) && c.branchName != ""
  }

  /** A directory that carries a Workspace's frozen intent, on its branch and descending from its base. */
  predicate Frozen(d: Directory, workspaceId: string, base: Commit, branch: string) {
    && d.repo.Some? && d.marker == Some(Marker(workspaceId, base, branch))
    && d.repo.value.branch == Some(branch) && Descends(d.repo.value.head, base)
  }

  /** The same, with nothing committed yet. */
  predicate Pristine(d: Directory, workspaceId: string, base: Commit, branch: string) {
    Frozen(d, workspaceId, base, branch) && d.repo.value.head == base
  }

  /** What resolving a reference finds on an intact host. */
  function Resolution(entries: Entries, workspaceRef: string): Option<Ready> {
    var named := Named(workspaceRef);
    if named.None? || Final(named.value) !in entries then None
    else
      var d := entries[Final(named.value)];
      if d.marker.None? || d.marker.value.workspaceId != named.value || d.repo.None? then None
      else
        var repo, marker := d.repo.value, d.marker.value;
        if repo.branch == Some(marker.branchName) && Descends(repo.head, marker.baseCommit) then
          Some(Ready(marker.baseCommit, repo.head, marker.branchName))
        else None
  }

  predicate StandsAt(d: Directory, workspaceId: string, base: Commit, branch: string, head: Commit) {
    && d.marker == Some(Marker(workspaceId, base, branch)) && d.repo.Some?
    && d.repo.value.branch == Some(branch) && d.repo.value.head == head && Descends(head, base)
  }

  /**
   A reference resolves exactly when it names a directory whose marker carries its own Workspace, and
   whose repository is on the marker's branch and descends from the marker's base.
   */
  lemma ResolvesIffFrozen(entries: Entries, workspaceId: string, base: Commit, branch: string)
    requires IsId(workspaceId)
    ensures forall head ::
              Resolution(entries, "host-task-workspace:" + workspaceId) == Some(Ready(base, head, branch)) <==>
                Final(workspaceId) in entries && StandsAt(entries[Final(workspaceId)], workspaceId, base, branch, head)
    ensures Final(workspaceId) in entries && Frozen(entries[Final(workspaceId)], workspaceId, base, branch) ==>
              Resolution(entries, REF_PREFIX + workspaceId)
              == Some(Ready(base, entries[Final(workspaceId)].repo.value.head, branch))
  {
    hide Descends;
    NamedIff(REF_PREFIX + workspaceId, workspaceId);
  }

  /** A reference names a Workspace exactly when it is the prefix and 36 hexadecimal digits and dashes. */
  lemma NamedIff(workspaceRef: string, workspaceId: string)
    ensures Named(workspaceRef) == Some(workspaceId)
       <==> (&& workspaceRef == "host-task-workspace:" + workspaceId && |workspaceId| == 36
             && forall i :: 0 <= i < 36 ==> workspaceId[i] in "0123456789abcdefABCDEF-")
  {
    var prefix := "host-task-workspace:";
    if Named(workspaceRef) == Some(workspaceId) {
      assert workspaceRef == prefix + workspaceId;
    }
    if workspaceRef == prefix + workspaceId {
      assert workspaceRef[..|prefix|] == prefix && workspaceRef[|prefix|..] == workspaceId;
    }
    if |workspaceId| == 36 {
      forall i | 0 <= i < 36
        ensures HexOrDash(workspaceId[i]) <==> workspaceId[i] in "0123456789abcdefABCDEF-"
      {
        HexOrDashIsListed(workspaceId[i]);
      }
    }
  }

  lemma HexOrDashIsListed(c: char)
    ensures HexOrDash(c) <==> c in "0123456789abcdefABCDEF-"
  {
    var all := "0123456789abcdefABCDEF-";
    assert all[0] == '0' && all[1] == '1' && all[2] == '2' && all[3] == '3' && all[4] == '4' && all[5] == '5';
    assert all[6] == '6' && all[7] == '7' && all[8] == '8' && all[9] == '9' && all[10] == 'a' && all[11] == 'b';
    assert all[12] == 'c' && all[13] == 'd' && all[14] == 'e' && all[15] == 'f' && all[16] == 'A' && all[17] == 'B';
    assert all[18] == 'C' && all[19] == 'D' && all[20] == 'E' && all[21] == 'F' && all[22] == '-';
  }

  // ---------------------------------------------------------------- the host

  class Host {
    var entries: Entries
    /** How many steps threw or misbehaved that a sound host would have done. */
    var faults: nat

    constructor (entries: Entries)
      ensures this.entries == entries
    {
      this.entries, faults := entries, 0;
    }

    method NextFate() returns (s: Fate)
      modifies this`faults
      ensures faults == old(faults) + if s.Threw? then 1 else 0
    {
      s := AnyFate();
      if s.Threw? {
        faults := faults + 1;
      }
    }

    /** Recursive removal, which may stop half-way. */
    method RemoveTemporary(name: Name) returns (s: Fate)
      requires name.Temporary?
      modifies this
      ensures entries - {name} == old(entries) - {name}
      ensures s.Done? ==> entries == old(entries) - {name}
      ensures faults == old(faults) + if s.Threw? then 1 else 0
    {
      s := NextFate();
      if s.Done? {
        entries := entries - {name};
      } else if name in entries {
        var rest: Directory := *;
        entries := entries[name := rest];
      }
    }

    method Clone(name: Name, remote: Remote) returns (s: Fate)
      requires name.Temporary? && name !in entries
      modifies this
      ensures entries - {name} == old(entries) - {name}
      ensures s.Done? ==> name in entries && entries[name].repo.Some? && entries[name].marker.None?
                          && entries[name].repo.value.objects == remote.cloned
      ensures faults == old(faults) + if s.Threw? then 1 else 0
    {
      s := NextFate();
      var d: Directory := *;
      if s.Done? {
        d := Directory(Some(Repo(Some(remote.branch), Commit("", []), remote.cloned)), None);
      }
      entries := entries[name := d];
    }

    /** Refused when the remote does not have the commit. */
    method Fetch(name: Name, commit: Commit, remote: Remote) returns (s: Fate)
      requires name.Temporary? && name in entries && entries[name].repo.Some?
      modifies this
      ensures entries - {name} == old(entries) - {name}
      ensures s.Done? ==> commit in remote.commits && name in entries && entries[name].repo.Some?
                          && entries[name].repo.value.objects == old(entries)[name].repo.value.objects + {commit}
      ensures s.Threw? && faults == old(faults) ==> commit !in remote.commits
      ensures old(faults) <= faults <= old(faults) + if s.Threw? then 1 else 0
    {
      if commit !in remote.commits {
        return Threw;
      }
      s := NextFate();
      if s.Done? {
        var repo := entries[name].repo.value;
        entries := entries[name := entries[name].(repo := Some(repo.(objects := repo.objects + {commit})))];
      }
    }

    method HasCommit(name: Name, commit: Commit) returns (s: Fate)
      requires name in entries && entries[name].repo.Some?
      modifies this`faults
      ensures s.Done? ==> commit in entries[name].repo.value.objects
      ensures s.Threw? && faults == old(faults) ==> commit !in entries[name].repo.value.objects
      ensures old(faults) <= faults <= old(faults) + if s.Threw? then 1 else 0
    {
      if commit !in entries[name].repo.value.objects {
        return Threw;
      }
      s := NextFate();
    }

    /** git ls-remote --exit-code: status 0 when the branch exists, 2 when it does not. */
    method LsRemote(branch: string, remote: Remote) returns (s: Fate, status: nat)
      modifies this`faults
      ensures s.Done? && faults == old(faults) ==> status == if branch in remote.branches then 0 else 2
      ensures s.Done? && status == 0 ==> branch in remote.branches
      ensures old(faults) <= faults <= old(faults) + 1 && (s.Threw? ==> faults > old(faults))
    {
      s := NextFate();
      status := if branch in remote.branches then 0 else 2;
      if s.Done? {
        if * {
          status, faults := 128, faults + 1;
        }
      }
    }

    /** Creates the branch and checks it out; a hook may lead elsewhere. */
    method Switch(name: Name, branch: string, commit: Commit) returns (s: Fate)
      requires name.Temporary? && name in entries && entries[name].repo.Some?
      modifies this
      ensures entries - {name} == old(entries) - {name}
      ensures s.Done? ==> name in entries && entries[name].repo.Some?
      ensures s.Done? && faults == old(faults) ==>
                entries[name].repo.value.branch == Some(branch) && entries[name].repo.value.head == commit
      ensures old(faults) <= faults && (s.Threw? ==> faults > old(faults))
    {
      s := NextFate();
      var repo := entries[name].repo.value.(branch := Some(branch), head := commit);
      if * {
        repo := *;
        faults := faults + 1;
      }
      entries := entries[name := entries[name].(repo := Some(repo))];
    }

    method RevParse(name: Name) returns (s: Fate, head: Commit)
      requires name in entries && entries[name].repo.Some?
      modifies this`faults
      ensures s.Done? ==> head == entries[name].repo.value.head
      ensures faults == old(faults) + if s.Threw? then 1 else 0
    {
      s := NextFate();
      head := entries[name].repo.value.head;
    }

    /** Refused on a detached HEAD. */
    method SymbolicRef(name: Name) returns (s: Fate, branch: string)
      requires name in entries && entries[name].repo.Some?
      modifies this`faults
      ensures s.Done? ==> entries[name].repo.value.branch == Some(branch)
      ensures s.Threw? && faults == old(faults) ==> entries[name].repo.value.branch.None?
      ensures old(faults) <= faults <= old(faults) + if s.Threw? then 1 else 0
    {
      var repo := entries[name].repo.value;
      if repo.branch.None? {
        return Threw, "";
      }
      s := NextFate();
      branch := repo.branch.value;
    }

    method WriteMarker(name: Name, marker: Marker) returns (s: Fate)
      requires name.Temporary? && name in entries
      modifies this
      ensures entries - {name} == old(entries) - {name}
      ensures s.Done? ==> name in entries && entries[name] == old(entries)[name].(marker := Some(marker))
      ensures faults == old(faults) + if s.Threw? then 1 else 0
    {
      s := NextFate();
      entries := entries[name := entries[name].(marker := if s.Done? then Some(marker) else None)];
    }

    /** Renames onto a name that must be free. The process may die before or after it takes effect. */
    method Publish(name: Name, final: Name) returns (s: Fate)
      requires name.Temporary? && name in entries && final.Final?
      modifies this
      ensures s.Done? ==> final !in old(entries) && entries == (old(entries) - {name})[final := old(entries)[name]]
      ensures s.Threw? ==> entries == old(entries)
      ensures || entries == old(entries)
              || (final !in old(entries) && entries == (old(entries) - {name})[final := old(entries)[name]])
      ensures s.Threw? && faults == old(faults) ==> final in entries
      ensures old(faults) <= faults <= old(faults) + if s.Threw? then 1 else 0
    {
      if final in entries {
        return Threw;
      }
      s := NextFate();
      if s.Done? {
        entries := (entries - {name})[final := entries[name]];
      } else if s.Died? {
        if * {
          entries := (entries - {name})[final := entries[name]];
        }
      }
    }
  }

  // ---------------------------------------------------------------- resolving

  /** None stands for the process dying. */
  method ResolveReadyWorkspace(host: Host, workspaceRef: string) returns (r: Option<Result<Ready, Code>>)
    modifies host`faults
    ensures old(host.faults) <= host.faults
    ensures r.Some? && r.value.Ok? ==> Resolution(host.entries, workspaceRef) == Some(r.value.value)
    ensures r.Some? && r.value.Err? ==> r.value.error == WorkspaceMissing
    ensures r.Some? && host.faults == old(host.faults) ==>
              r.value == match Resolution(host.entries, workspaceRef)
                         case Some(ready) => Ok(ready)
                         case None => Err(WorkspaceMissing)
  {
    hide Descends;
    var missing := Some(Err(WorkspaceMissing));
    var named := Named(workspaceRef);
    if named.None? {
      return missing;
    }
    var name := Final(named.value);
    var s := host.NextFate();
    if !s.Done? {
      return if s.Died? then None else missing;
    }
    if name !in host.entries {
      return missing;
    }
    var d := host.entries[name];
    if d.marker.None? || d.marker.value.workspaceId != named.value || d.repo.None? {
      return missing;
    }
    var head, branch;
    s, head := host.RevParse(name);
    if s.Done? {
      s, branch := host.SymbolicRef(name);
    }
    if !s.Done? {
      return if s.Died? then None else missing;
    }
    s := host.NextFate();
    if !s.Done? {
      return if s.Died? then None else missing;
    }
    if branch != d.marker.value.branchName || !Descends(d.repo.value.head, d.marker.value.baseCommit) {
      return missing;
    }
    r := Some(Ok(Ready(d.marker.value.baseCommit, head, branch)));
  }

  // ---------------------------------------------------------------- one attempt

  datatype Built = Built | BuildFailure(code: Code) | Death

  function Stopped(s: Fate): Built
    requires !s.Done?
  {
    if s.Died? then Death else BuildFailure(GitFailed)
  }

  /** Clones, checks and marks the attempt's own directory. */
  method Build(host: Host, claim: Claim, remote: Remote) returns (r: Built)
    requires Temporary(claim.workspaceId, claim.attemptId) !in host.entries
    modifies host
    ensures old(host.faults) <= host.faults
    ensures var name := Temporary(claim.workspaceId, claim.attemptId);
            && host.entries - {name} == old(host.entries) - {name}
            && (r.Built? ==> name in host.entries
                             && Pristine(host.entries[name], claim.workspaceId, claim.baseCommit, claim.branchName))
    ensures host.faults == old(host.faults) && !r.Death? ==>
              r == if claim.baseCommit !in remote.commits then BuildFailure(GitFailed)
                   else if claim.branchName in remote.branches then BuildFailure(BranchCollision)
                   else Built
  {
    hide Size;
    var name := Temporary(claim.workspaceId, claim.attemptId);
    var s := host.Clone(name, remote);
    if !s.Done? {
      return Stopped(s);
    }
    s := host.Fetch(name, claim.baseCommit, remote);
    if !s.Done? {
      return Stopped(s);
    }
    s := host.HasCommit(name, claim.baseCommit);
    if !s.Done? {
      return Stopped(s);
    }
    var status;
    s, status := host.LsRemote(claim.branchName, remote);
    if !s.Done? {
      return Stopped(s);
    }
    if status == 0 {
      return BuildFailure(BranchCollision);
    }
    if status != 2 {
      return BuildFailure(GitFailed);
    }
    s := host.Switch(name, claim.branchName, claim.baseCommit);
    if !s.Done? {
      return Stopped(s);
    }
    var head, branch;
    s, head := host.RevParse(name);
    if !s.Done? {
      return Stopped(s);
    }
    s, branch := host.SymbolicRef(name);
    if !s.Done? {
      return Stopped(s);
    }
    if head != claim.baseCommit || branch != claim.branchName {
      return BuildFailure(VerificationFailed);
    }
    s := host.WriteMarker(name, Marker(claim.workspaceId, head, branch));
    r := if s.Done? then Built else Stopped(s);
  }

  function ReportFor(claim: Claim): Report {
    Report(claim.attemptSequence, claim.workspaceRef, claim.baseCommit, claim.branchName)
  }

  /** The outcome of an attempt in which no step throws and the process survives. */
  function Verdict(entries: Entries, claim: Claim, remote: Remote, runnerValid: bool): Outcome {
    var final := Final(claim.workspaceId);
    if !ClaimValid(claim) then Failed(GitFailed)
    else if claim.workspaceRef != REF_PREFIX + claim.workspaceId then Failed(WorkspaceRefInvalid)
    else if final in entries && !Pristine(entries[final], claim.workspaceId, claim.baseCommit, claim.branchName) then
      Failed(PublishTargetExists)
    else if final !in entries && claim.baseCommit !in remote.commits then Failed(GitFailed)
    else if final !in entries && claim.branchName in remote.branches then Failed(BranchCollision)
    else if !runnerValid then Failed(GitFailed)
    else Succeeded(ReportFor(claim))
  }

  /** The report repeats the claim, and says what the directory's marker and HEAD say. */
  ghost predicate Reports(report: Report, claim: Claim, d: Directory) {
    && report.attemptSequence == claim.attemptSequence && report.workspaceRef == claim.workspaceRef
    && report.baseCommit == claim.baseCommit && report.branchName == claim.branchName
    && Pristine(d, claim.workspaceId, claim.baseCommit, claim.branchName)
    && d.marker.value.workspaceId == claim.workspaceId
    && report.baseCommit == d.marker.value.baseCommit == d.repo.value.head
    && report.branchName == d.marker.value.branchName && d.repo.value.branch == Some(report.branchName)
  }

  lemma ReportMatches(claim: Claim, d: Directory)
    requires Pristine(d, claim.workspaceId, claim.baseCommit, claim.branchName)
    ensures Reports(ReportFor(claim), claim, d)
  {
  }

  /** The attempt publishes a directory, whether or not its report validates afterwards. */
  predicate Publishable(entries: Entries, claim: Claim, remote: Remote) {
    && IsId(claim.workspaceId) && IsId(claim.attemptId) && claim.branchName != ""
    && claim.workspaceRef == "host-task-workspace:" + claim.workspaceId
    && Final(claim.workspaceId) !in entries
    && claim.baseCommit in remote.commits && claim.branchName !in remote.branches
  }

  /**
   What an attempt may leave: nothing but its own two names can change, an existing final directory
   never does, a new one is complete and untouched, and success means it is there and reported.
   */
  ghost predicate Leaves(before: Entries, claim: Claim, outcome: Outcome, after: Entries) {
    var final, temporary := Final(claim.workspaceId), Temporary(claim.workspaceId, claim.attemptId);
    && before - {final, temporary} == after - {final, temporary}
    && (final in before ==> final in after && after[final] == before[final])
    && (final in after && final !in before ==>
        Pristine(after[final], claim.workspaceId, claim.baseCommit, claim.branchName))
    && (outcome.Succeeded? ==> final in after && Reports(outcome.report, claim, after[final]))
  }

  /** The final directory is already there. */
  method Revisit(host: Host, claim: Claim, runnerValid: bool) returns (outcome: Outcome)
    requires IsId(claim.workspaceId) && claim.workspaceRef == REF_PREFIX + claim.workspaceId
    requires Final(claim.workspaceId) in host.entries
    modifies host`faults
    ensures old(host.faults) <= host.faults
    ensures var final := host.entries[Final(claim.workspaceId)];
            var pristine := Pristine(final, claim.workspaceId, claim.baseCommit, claim.branchName);
            && (outcome.Succeeded? ==> pristine && Reports(outcome.report, claim, final))
            && (host.faults == old(host.faults) && !outcome.Crashed? ==>
                  outcome == if !pristine then Failed(PublishTargetExists)
                             else if !runnerValid then Failed(GitFailed)
                             else Succeeded(ReportFor(claim)))
  {
    hide Descends;
    var existing := ResolveReadyWorkspace(host, claim.workspaceRef);
    ResolvesIffFrozen(host.entries, claim.workspaceId, claim.baseCommit, claim.branchName);
    if existing.None? {
      return Crashed;
    }
    if existing.value != Ok(Ready(claim.baseCommit, claim.baseCommit, claim.branchName)) {
      return Failed(PublishTargetExists);
    }
    outcome := if runnerValid then Succeeded(ReportFor(claim)) else Failed(GitFailed);
  }

  /** The final directory is not there yet. `published` says that the attempt's own directory is gone. */
  method Attempt(
      host: Host, claim: Claim, remote: Remote, runnerValid: bool)
    returns (outcome: Outcome, published: bool)
    requires Final(claim.workspaceId) !in host.entries
    modifies host
    ensures old(host.faults) <= host.faults
    ensures Leaves(old(host.entries), claim, outcome, host.entries)
    ensures published && !outcome.Crashed? ==>
              && Temporary(claim.workspaceId, claim.attemptId) !in host.entries
              && Final(claim.workspaceId) in host.entries
    ensures !published && !outcome.Crashed? ==> Final(claim.workspaceId) !in host.entries
    ensures outcome.Succeeded? ==> published
    ensures host.faults == old(host.faults) && !outcome.Crashed? ==>
              && (published <==> claim.baseCommit in remote.commits && claim.branchName !in remote.branches)
              && outcome == if claim.baseCommit !in remote.commits then Failed(GitFailed)
                            else if claim.branchName in remote.branches then Failed(BranchCollision)
                            else if !runnerValid then Failed(GitFailed)
                            else Succeeded(ReportFor(claim))
  {
    hide Pristine;
    var final, temporary := Final(claim.workspaceId), Temporary(claim.workspaceId, claim.attemptId);
    ghost var before := host.entries;
    published := false;
    var s := host.RemoveTemporary(temporary);
    ElsewhereUnchanged(before, host.entries, final, temporary);
    if !s.Done? {
      return if s.Died? then Crashed else Failed(GitFailed), published;
    }
    var r := Build(host, claim, remote);
    ElsewhereUnchanged(before, host.entries, final, temporary);
    match r
    case Death =>
      outcome := Crashed;
    case BuildFailure(code) =>
      outcome := Failed(code);
    case Built =>
      s := host.Publish(temporary, final);
      if s.Done? {
        ReportMatches(claim, host.entries[final]);
        published := true;
        outcome := if runnerValid then Succeeded(ReportFor(claim)) else Failed(GitFailed);
      } else {
        outcome := if s.Died? then Crashed else Failed(RenameFailed);
      }
  }

  lemma ElsewhereUnchanged(a: Entries, b: Entries, final: Name, temporary: Name)
    requires a - {temporary} == b - {temporary} && final != temporary
    ensures a - {final, temporary} == b - {final, temporary}
    ensures final in a <==> final in b
    ensures final in a ==> a[final] == b[final]
  {
    assert a - {final, temporary} == (a - {temporary}) - {final};
    assert b - {final, temporary} == (b - {temporary}) - {final};
    assert final in a <==> final in a - {temporary};
    assert final in b <==> final in b - {temporary};
    assert final in a ==> a[final] == (a - {temporary})[final] == b[final];
  }

  method Materialize(host: Host, claim: Claim, remote: Remote, runnerValid: bool) returns (outcome: Outcome)
    modifies host
    ensures old(host.faults) <= host.faults
    ensures Leaves(old(host.entries), claim, outcome, host.entries)
    ensures host.faults == old(host.faults) && !outcome.Crashed? ==>
              && outcome == Verdict(old(host.entries), claim, remote, runnerValid)
              && (ClaimValid(claim) && claim.workspaceRef == REF_PREFIX + claim.workspaceId
                  && (outcome.Succeeded? ==> Final(claim.workspaceId) !in old(host.entries)) ==>
                    Temporary(claim.workspaceId, claim.attemptId) !in host.entries)
              && (Final(claim.workspaceId) in host.entries <==>
                    Final(claim.workspaceId) in old(host.entries) || Publishable(old(host.entries), claim, remote))
  {
    hide Pristine;
    var final, temporary := Final(claim.workspaceId), Temporary(claim.workspaceId, claim.attemptId);
    if !ClaimValid(claim) {
      return Failed(GitFailed);
    }
    if claim.workspaceRef != REF_PREFIX + claim.workspaceId {
      return Failed(WorkspaceRefInvalid);
    }
    var s := host.NextFate();
    if !s.Done? {
      return if s.Died? then Crashed else Failed(GitFailed);
    }
    outcome := Failed(GitFailed);
    var published := false;
    s := host.NextFate();
    if s.Done? {
      if final in host.entries {
        outcome := Revisit(host, claim, runnerValid);
      } else {
        outcome, published := Attempt(host, claim, remote, runnerValid);
      }
    } else if s.Died? {
      outcome := Crashed;
    }
    if outcome.Failed? && !published {
      ghost var now := host.entries;
      s := host.RemoveTemporary(temporary);
      ElsewhereUnchanged(now, host.entries, final, temporary);
      if s.Died? {
        outcome := Crashed;
      }
    }
  }

  // ---------------------------------------------------------------- a host's life

  /** Between attempts, work is committed on a Workspace's branch, possibly merging other histories. */
  datatype Event =
    | Attempted(claim: Claim, outcome: Outcome)
    | Worked(workspaceId: string, payload: string, merged: seq<Commit>)

  ghost predicate Next(before: Entries, e: Event, after: Entries) {
    match e
    case Attempted(claim, outcome) => Leaves(before, claim, outcome, after)
    case Worked(workspaceId, payload, merged) =>
      && Final(workspaceId) in before && before[Final(workspaceId)].repo.Some?
      && var d := before[Final(workspaceId)];
         var head := Commit(payload, [d.repo.value.head] + merged);
         after == before[Final(workspaceId) := d.(repo := Some(d.repo.value.(head := head)))]
  }

  ghost predicate Life(states: seq<Entries>, events: seq<Event>) {
    && |states| == |events| + 1
    && forall i :: 0 <= i < |events| ==> Next(states[i], events[i], states[i + 1])
  }

  lemma StepKeepsFrozen(before: Entries, e: Event, after: Entries, workspaceId: string, base: Commit, branch: string)
    requires Next(before, e, after) && Final(workspaceId) in before
    requires Frozen(before[Final(workspaceId)], workspaceId, base, branch)
    ensures Final(workspaceId) in after && Frozen(after[Final(workspaceId)], workspaceId, base, branch)
    ensures Descends(after[Final(workspaceId)].repo.value.head, before[Final(workspaceId)].repo.value.head)
    ensures e.Attempted? || e.workspaceId != workspaceId ==> after[Final(workspaceId)] == before[Final(workspaceId)]
  {
    var name := Final(workspaceId);
    match e
    case Attempted(claim, outcome) =>
      var own := {Final(claim.workspaceId), Temporary(claim.workspaceId, claim.attemptId)};
      if name !in own {
        assert name in before - own;
        assert name in after - own && (after - own)[name] == after[name];
      }
    case Worked(id, payload, merged) =>
      var prior := before[name].repo.value.head;
      var head := after[name].repo.value.head;
      if id == workspaceId {
        assert head.parents[0] == prior;
        DescendsIsTransitive(head, prior, base);
      }
  }

  /**
   Once a Workspace is there it stays: whatever attempts (crashed, failed or repeated) and commits
   follow, its reference keeps resolving with the frozen base and branch, to a commit that descends
   from the one before; and without commits in between the directory is unchanged.
   */
  lemma {:induction false} WorkspaceStaysReady(
      states: seq<Entries>, events: seq<Event>, i: nat, workspaceId: string, base: Commit, branch: string)
    requires Life(states, events) && i <= |events| && IsId(workspaceId)
    requires Final(workspaceId) in states[i] && Frozen(states[i][Final(workspaceId)], workspaceId, base, branch)
    ensures var last := states[|events|];
            && Final(workspaceId) in last && Frozen(last[Final(workspaceId)], workspaceId, base, branch)
            && Descends(last[Final(workspaceId)].repo.value.head, states[i][Final(workspaceId)].repo.value.head)
            && Resolution(last, REF_PREFIX + workspaceId)
               == Some(Ready(base, last[Final(workspaceId)].repo.value.head, branch))
            && ((forall k :: i <= k < |events| ==> events[k].Attempted? || events[k].workspaceId != workspaceId) ==>
                  last[Final(workspaceId)] == states[i][Final(workspaceId)])
    decreases |events| - i
  {
    hide Next;
    ResolvesIffFrozen(states[|events|], workspaceId, base, branch);
    if i < |events| {
      StepKeepsFrozen(states[i], events[i], states[i + 1], workspaceId, base, branch);
      WorkspaceStaysReady(states, events, i + 1, workspaceId, base, branch);
      DescendsIsTransitive(states[|events|][Final(workspaceId)].repo.value.head,
                           states[i + 1][Final(workspaceId)].repo.value.head,
                           states[i][Final(workspaceId)].repo.value.head);
    }
  }

  lemma StepKeepsFinal(before: Entries, e: Event, after: Entries, workspaceId: string)
    requires Next(before, e, after) && Final(workspaceId) in before
    ensures Final(workspaceId) in after
  {
    if e.Attempted? {
      var own := {Final(e.claim.workspaceId), Temporary(e.claim.workspaceId, e.claim.attemptId)};
      if Final(workspaceId) !in own {
        assert Final(workspaceId) in before - own;
      }
    }
  }

  lemma {:induction false} FinalStays(states: seq<Entries>, events: seq<Event>, i: nat, j: nat, workspaceId: string)
    requires Life(states, events) && i <= j <= |events| && Final(workspaceId) in states[i]
    ensures Final(workspaceId) in states[j]
    decreases j - i
  {
    if i < j {
      StepKeepsFinal(states[i], events[i], states[i + 1], workspaceId);
      FinalStays(states, events, i + 1, j, workspaceId);
    }
  }

  ghost predicate CreatedAt(states: seq<Entries>, i: nat, workspaceId: string) {
    i + 1 < |states| && Final(workspaceId) !in states[i] && Final(workspaceId) in states[i + 1]
  }

  /** The final directory is created at most once, and only by an attempt for it, complete and untouched. */
  lemma CreatedAtMostOnce(states: seq<Entries>, events: seq<Event>, i: nat, workspaceId: string)
    requires Life(states, events) && CreatedAt(states, i, workspaceId)
    ensures forall k: nat :: CreatedAt(states, k, workspaceId) ==> k == i
    ensures events[i].Attempted? && events[i].claim.workspaceId == workspaceId
    ensures var claim := events[i].claim;
            Pristine(states[i + 1][Final(workspaceId)], workspaceId, claim.baseCommit, claim.branchName)
  {
    hide Frozen;
    forall k: nat | CreatedAt(states, k, workspaceId)
      ensures k == i
    {
      if k < i {
        FinalStays(states, events, k + 1, i, workspaceId);
      } else if i < k {
        FinalStays(states, events, i + 1, k, workspaceId);
      }
    }
    assert Next(states[i], events[i], states[i + 1]);
    if events[i].Attempted? {
      var claim := events[i].claim;
      var own := {Final(claim.workspaceId), Temporary(claim.workspaceId, claim.attemptId)};
      assert Final(workspaceId) !in states[i] - own;
      assert Final(workspaceId) !in states[i + 1] - own;
    }
  }

  lemma SuccessIsPristine(states: seq<Entries>, events: seq<Event>, i: nat)
    requires Life(states, events) && i < |events| && events[i].Attempted? && events[i].outcome.Succeeded?
    ensures var claim := events[i].claim;
            && Final(claim.workspaceId) in states[i + 1]
            && Pristine(states[i + 1][Final(claim.workspaceId)], claim.workspaceId, claim.baseCommit, claim.branchName)
            && Reports(events[i].outcome.report, claim, states[i + 1][Final(claim.workspaceId)])
  {
    assert Next(states[i], events[i], states[i + 1]);
  }

  /**
   All successful attempts for a Workspace report the same base commit and branch: their claims', and
   those of the marker and the HEAD in the directory.
   */
  lemma SuccessesAgree(states: seq<Entries>, events: seq<Event>, i: nat, j: nat)
    requires Life(states, events) && i < j < |events|
    requires events[i].Attempted? && events[i].outcome.Succeeded?
    requires events[j].Attempted? && events[j].outcome.Succeeded?
    requires events[i].claim.workspaceId == events[j].claim.workspaceId && IsId(events[i].claim.workspaceId)
    ensures Final(events[i].claim.workspaceId) in states[j + 1]
    ensures var d := states[j + 1][Final(events[i].claim.workspaceId)];
            && d.marker.Some? && d.repo.Some?
            && events[i].outcome.report.baseCommit == events[j].outcome.report.baseCommit
               == events[i].claim.baseCommit == events[j].claim.baseCommit
               == d.marker.value.baseCommit == d.repo.value.head
            && events[i].outcome.report.branchName == events[j].outcome.report.branchName
               == events[i].claim.branchName == events[j].claim.branchName == d.marker.value.branchName
            && d.repo.value.branch == Some(events[j].claim.branchName)
  {
    hide Next;
    var claim := events[i].claim;
    SuccessIsPristine(states, events, i);
    SuccessIsPristine(states, events, j);
    WorkspaceStaysReady(states[..j + 2], events[..j + 1], i + 1, claim.workspaceId, claim.baseCommit, claim.branchName);
  }

  /** Once work has been committed, no attempt succeeds again: histories have no cycles. */
  lemma NoSuccessAfterWork(states: seq<Entries>, events: seq<Event>, i: nat, k: nat, j: nat)
    requires Life(states, events) && i < k < j < |events|
    requires events[i].Attempted? && events[i].outcome.Succeeded? && IsId(events[i].claim.workspaceId)
    requires events[k].Worked? && events[k].workspaceId == events[i].claim.workspaceId
    requires events[j].Attempted? && events[j].claim.workspaceId == events[i].claim.workspaceId
    ensures !events[j].outcome.Succeeded?
  {
    var claim := events[i].claim;
    var name := Final(claim.workspaceId);
    SuccessIsPristine(states, events, i);
    WorkspaceStaysReady(states[..k + 1], events[..k], i + 1, claim.workspaceId, claim.baseCommit, claim.branchName);
    assert Next(states[k], events[k], states[k + 1]);
    var prior, head := states[k][name].repo.value.head, states[k + 1][name].repo.value.head;
    assert head.parents == [prior] + events[k].merged;
    StepKeepsFrozen(states[k], events[k], states[k + 1], claim.workspaceId, claim.baseCommit, claim.branchName);
    WorkspaceStaysReady(states[..j + 2], events[..j + 1], k + 1, claim.workspaceId, claim.baseCommit, claim.branchName);
    var last := states[j + 1][name].repo.value.head;
    assert Size(last) > Size(claim.baseCommit) by {
      AncestorIsSmaller(prior, claim.baseCommit);
      ParentIsSmaller(head.parents, 0);
      AncestorIsSmaller(last, head);
    }
    if events[j].outcome.Succeeded? {
      SuccessIsPristine(states, events, j);
    }
  }
}
