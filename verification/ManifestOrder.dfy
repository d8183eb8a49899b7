/**
 The ordering check of packages/shared/src/skill.ts: each manifest path is compared with its
 predecessor byte by byte.
 */
module ManifestOrder {

  type Byte = b: int | 0 <= b < 256

  /** Lexicographic order of byte strings; a proper prefix is smaller. */
  predicate Less(a: seq<Byte>, b: seq<Byte>) {
    if b == [] then false
    else if a == [] then true
    else a[0] < b[0] || (a[0] == b[0] && Less(a[1..], b[1..]))
  }

  predicate AgreeBelow(a: seq<Byte>, b: seq<Byte>, n: nat)
    requires n <= |a| && n <= |b|
  {
    forall i :: 0 <= i < n ==> a[i] == b[i]
  }

  /** The order is decided by the first difference, or by length. */
  lemma {:induction false} LessAtDifference(a: seq<Byte>, b: seq<Byte>, n: nat)
    requires n <= |a| && n <= |b| && AgreeBelow(a, b, n)
    requires n < |a| && n < |b| ==> a[n] != b[n]
    ensures Less(a, b) <==> (if n < |a| && n < |b| then a[n] < b[n] else |a| < |b|)
    ensures n == |a| == |b| ==> a == b
  {
    if n > 0 {
      LessAtDifference(a[1..], b[1..], n - 1);
    }
  }

  /** The inner loop: its result has the sign of the lexicographic comparison. */
  method Compare(previous: seq<Byte>, current: seq<Byte>) returns (comparison: int)
    ensures comparison < 0 <==> Less(previous, current)
    ensures comparison == 0 <==> previous == current
    ensures comparison > 0 <==> Less(current, previous)
  {
    var shorter := if |previous| < |current| then |previous| else |current|;
    comparison := |previous| - |current|;
    var byte := 0;
    while byte < shorter
      invariant 0 <= byte <= shorter
      invariant AgreeBelow(previous, current, byte) && AgreeBelow(current, previous, byte)
      invariant comparison == |previous| - |current|
    {
      if previous[byte] != current[byte] {
        comparison := (previous[byte] as int) - (current[byte] as int);
        break;
      }
      if byte == shorter - 1 {
        comparison := |previous| - |current|;
      }
      byte := byte + 1;
    }
    LessAtDifference(previous, current, byte);
    LessAtDifference(current, previous, byte);
  }

  lemma {:induction false} LessIsTransitive(a: seq<Byte>, b: seq<Byte>, c: seq<Byte>)
    requires Less(a, b) && Less(b, c)
    ensures Less(a, c)
    decreases |a|
  {
    if a != [] && a[0] == b[0] == c[0] {
      LessIsTransitive(a[1..], b[1..], c[1..]);
    }
  }

  lemma {:induction false} LessIsIrreflexive(a: seq<Byte>)
    ensures !Less(a, a)
    decreases |a|
  {
    if a != [] {
      LessIsIrreflexive(a[1..]);
    }
  }

  predicate StrictlySorted(paths: seq<seq<Byte>>) {
    forall i, j :: 0 <= i < j < |paths| ==> Less(paths[i], paths[j])
  }

  predicate Distinct(paths: seq<seq<Byte>>) {
    forall i, j :: 0 <= i < j < |paths| ==> paths[i] != paths[j]
  }

  /** The path at this index does not come after its predecessor. */
  predicate OutOfOrder(paths: seq<seq<Byte>>, index: int) {
    1 <= index < |paths| && !Less(paths[index - 1], paths[index])
  }

  /** The issues are exactly the indices below `end` that are out of order, in ascending order. */
  ghost predicate Reports(paths: seq<seq<Byte>>, issues: seq<int>, end: int) {
    && (forall i, j :: 0 <= i < j < |issues| ==> issues[i] < issues[j])
    && (forall i :: 0 <= i < |issues| ==> issues[i] < end && OutOfOrder(paths, issues[i]))
    && (forall index :: index < end && OutOfOrder(paths, index) ==> index in issues)
  }

  /** The outer loop: one issue for every path that does not come after its predecessor. */
  method CheckManifestOrder(paths: seq<seq<Byte>>) returns (issues: seq<int>)
    ensures Reports(paths, issues, |paths|)
  {
    issues := [];
    var index := 1;
    while index < |paths|
      invariant 1 <= index
      invariant Reports(paths, issues, index)
    {
      var comparison := Compare(paths[index - 1], paths[index]);
      if comparison >= 0 {
        ghost var before := issues;
        issues := issues + [index];
        assert forall k :: k in before ==> k in issues;
        assert issues[|before|] == index;
      }
      index := index + 1;
    }
  }

  lemma {:induction false} AdjacentSuffices(paths: seq<seq<Byte>>, i: nat, j: nat)
    requires forall k :: 1 <= k < |paths| ==> Less(paths[k - 1], paths[k])
    requires i < j < |paths|
    ensures Less(paths[i], paths[j])
    decreases j
  {
    if i < j - 1 {
      AdjacentSuffices(paths, i, j - 1);
      LessIsTransitive(paths[i], paths[j - 1], paths[j]);
    }
  }

  /** Passing every adjacent check means the whole list is strictly sorted, hence free of repeats. */
  lemma NoIssueIffStrictlySorted(paths: seq<seq<Byte>>, issues: seq<int>)
    requires Reports(paths, issues, |paths|)
    ensures issues == [] <==> StrictlySorted(paths)
    ensures issues == [] ==> Distinct(paths)
  {
    if issues == [] {
      forall i, j | 0 <= i < j < |paths|
        ensures Less(paths[i], paths[j]) && paths[i] != paths[j]
      {
        forall k | 1 <= k < |paths|
          ensures Less(paths[k - 1], paths[k])
        {
          assert !OutOfOrder(paths, k);
        }
        AdjacentSuffices(paths, i, j);
        LessIsIrreflexive(paths[i]);
      }
    } else {
      assert OutOfOrder(paths, issues[0]);
    }
  }
}
