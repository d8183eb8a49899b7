/**
 mergeSessionEvents of apps/control-plane/app/_components/session-presentation.ts: overlapping
 windows of one event log are merged by id and put in log order.
 */
module EventMerge {

  datatype LogEvent = LogEvent(eventId: string, globalSequence: nat, content: string)

  // ---------------------------------------------------------------- what a merge yields

  /** The last event given for each id. */
  function Latest(events: seq<LogEvent>): map<string, LogEvent> {
    if events == [] then map[]
    else
      var e := events[|events| - 1];
      Latest(events[..|events| - 1])[e.eventId := e]
  }

  /** For each id the last event given counts. */
  lemma {:induction false} LatestIsLast(events: seq<LogEvent>, i: nat)
    requires i < |events| && forall j :: i < j < |events| ==> events[j].eventId != events[i].eventId
    ensures events[i].eventId in Latest(events) && Latest(events)[events[i].eventId] == events[i]
  {
    var n := |events| - 1;
    if i < n {
      LatestIsLast(events[..n], i);
    }
  }

  predicate InOrder(events: seq<LogEvent>) {
    forall i, j :: 0 <= i < j < |events| ==> events[i].globalSequence <= events[j].globalSequence
  }

  predicate DistinctIds(events: seq<LogEvent>) {
    forall i, j :: 0 <= i < j < |events| ==> events[i].eventId != events[j].eventId
  }

  /** The list holds exactly the values of the map, each under its own id. */
  predicate Holds(events: seq<LogEvent>, byId: map<string, LogEvent>) {
    && DistinctIds(events)
    && (forall e :: e in events ==> e.eventId in byId && byId[e.eventId] == e)
    && (forall id :: id in byId ==> byId[id] in events)
  }

  /** One event per id, the last one given, in order of globalSequence. */
  predicate IsMerge(merged: seq<LogEvent>, current: seq<LogEvent>, incoming: seq<LogEvent>) {
    InOrder(merged) && Holds(merged, Latest(current + incoming))
  }

  // ---------------------------------------------------------------- the merge

  /** Map.set: a known key keeps its place and gets the new value. */
  method Put(byId: map<string, LogEvent>, keys: seq<string>, e: LogEvent)
    returns (byId': map<string, LogEvent>, keys': seq<string>)
    requires forall id :: id in keys <==> id in byId
    requires forall i, j :: 0 <= i < j < |keys| ==> keys[i] != keys[j]
    ensures byId' == byId[e.eventId := e]
    ensures forall id :: id in keys' <==> id in byId'
    ensures forall i, j :: 0 <= i < j < |keys'| ==> keys'[i] != keys'[j]
    ensures keys <= keys'
  {
    byId' := byId[e.eventId := e];
    keys' := if e.eventId in byId then keys else keys + [e.eventId];
  }

  /** Places one event behind every event that does not come after it. */
  method Insert(sorted: seq<LogEvent>, e: LogEvent) returns (all: seq<LogEvent>)
    requires InOrder(sorted)
    ensures InOrder(all)
    ensures exists i :: 0 <= i <= |sorted| && all == sorted[..i] + [e] + sorted[i..]
  {
    var i := |sorted|;
    while i > 0 && e.globalSequence < sorted[i - 1].globalSequence
      invariant 0 <= i <= |sorted|
      invariant forall k :: i <= k < |sorted| ==> e.globalSequence < sorted[k].globalSequence
    {
      i := i - 1;
    }
    all := sorted[..i] + [e] + sorted[i..];
  }

  lemma InsertKeepsHolds(sorted: seq<LogEvent>, byId: map<string, LogEvent>, e: LogEvent, i: nat)
    requires Holds(sorted, byId) && e.eventId !in byId && i <= |sorted|
    ensures Holds(sorted[..i] + [e] + sorted[i..], byId[e.eventId := e])
  {
  }

  method MergeSessionEvents(current: seq<LogEvent>, incoming: seq<LogEvent>) returns (merged: seq<LogEvent>)
    ensures IsMerge(merged, current, incoming)
  {
    hide Holds, InOrder;
    var byId: map<string, LogEvent>, keys: seq<string> := map[], [];
    var given := current + incoming;
    for n := 0 to |current|
      invariant byId == Latest(given[..n])
      invariant forall id :: id in keys <==> id in byId
      invariant forall i, j :: 0 <= i < j < |keys| ==> keys[i] != keys[j]
    {
      assert given[..n + 1][..n] == given[..n];
      byId, keys := Put(byId, keys, current[n]);
    }
    for n := 0 to |incoming|
      invariant byId == Latest(given[..|current| + n])
      invariant forall id :: id in keys <==> id in byId
      invariant forall i, j :: 0 <= i < j < |keys| ==> keys[i] != keys[j]
    {
      assert given[..|current| + n + 1][..|current| + n] == given[..|current| + n];
      byId, keys := Put(byId, keys, incoming[n]);
    }
    assert given[..|given|] == given;
    LatestIsKeyed(given);
    merged := Sorted(byId, keys);
  }

  lemma {:induction false} LatestIsKeyed(events: seq<LogEvent>)
    ensures forall id :: id in Latest(events) ==> Latest(events)[id].eventId == id && Latest(events)[id] in events
    decreases |events|
  {
    if events != [] {
      LatestIsKeyed(events[..|events| - 1]);
    }
  }

  /** The restriction of a map to some of its keys. */
  function Restrict(byId: map<string, LogEvent>, keys: seq<string>): map<string, LogEvent> {
    map id | id in byId && id in keys :: byId[id]
  }

  lemma RestrictSnoc(byId: map<string, LogEvent>, keys: seq<string>, n: nat)
    requires n < |keys| && keys[n] in byId
    ensures Restrict(byId, keys[..n + 1]) == Restrict(byId, keys[..n])[keys[n] := byId[keys[n]]]
  {
  }

  /** Array.sort by globalSequence over the map's values. */
  method Sorted(byId: map<string, LogEvent>, keys: seq<string>) returns (sorted: seq<LogEvent>)
    requires forall id :: id in keys <==> id in byId
    requires forall i, j :: 0 <= i < j < |keys| ==> keys[i] != keys[j]
    requires forall id :: id in byId ==> byId[id].eventId == id
    ensures InOrder(sorted) && Holds(sorted, byId)
  {
    sorted := [];
    for n := 0 to |keys|
      invariant InOrder(sorted) && Holds(sorted, Restrict(byId, keys[..n]))
    {
      hide Holds;
      var e := byId[keys[n]];
      var all := Insert(sorted, e);
      ghost var i: nat :| i <= |sorted| && all == sorted[..i] + [e] + sorted[i..];
      assert keys[n] !in Restrict(byId, keys[..n]);
      InsertKeepsHolds(sorted, Restrict(byId, keys[..n]), e, i);
      RestrictSnoc(byId, keys, n);
      sorted := all;
    }
    assert Restrict(byId, keys[..|keys|]) == byId;
  }

  // ---------------------------------------------------------------- windows of one log

  /** An id names one event and no two events share a place in the log. */
  predicate OneLog(events: seq<LogEvent>) {
    forall e, f :: e in events && f in events ==>
      (e.eventId == f.eventId ==> e == f) && (e.globalSequence == f.globalSequence ==> e == f)
  }

  /** The strictly increasing list of exactly these events. */
  ghost predicate Lists(events: seq<LogEvent>, content: iset<LogEvent>) {
    && (forall i, j :: 0 <= i < j < |events| ==> events[i].globalSequence < events[j].globalSequence)
    && (forall e :: e in events <==> e in content)
  }

  ghost function Content(events: seq<LogEvent>): iset<LogEvent> {
    iset e | e in events
  }

  lemma {:induction false} ListIsUnique(a: seq<LogEvent>, b: seq<LogEvent>, content: iset<LogEvent>)
    requires Lists(a, content) && Lists(b, content)
    ensures a == b
    decreases |a|
  {
    if a == [] {
      if b != [] {
        HasMember(b);
        assert false;
      }
    } else {
      assert a[0] in content && a[0] in b;
      assert b[0] in content && b[0] in a;
      assert a[0] == b[0];
      var rest := content - iset{a[0]};
      TailLists(a, content);
      TailLists(b, content);
      ListIsUnique(a[1..], b[1..], rest);
      assert a == [a[0]] + a[1..] && b == [b[0]] + b[1..];
    }
  }

  lemma HasMember(a: seq<LogEvent>)
    requires a != []
    ensures exists e :: e in a
  {
    assert a[0] in a;
  }

  lemma TailLists(a: seq<LogEvent>, content: iset<LogEvent>)
    requires Lists(a, content) && a != []
    ensures Lists(a[1..], content - iset{a[0]})
  {
  }

  lemma {:induction false} LatestOfOneLog(events: seq<LogEvent>)
    requires OneLog(events)
    ensures forall e :: e in events ==> e.eventId in Latest(events) && Latest(events)[e.eventId] == e
    decreases |events|
  {
    if events != [] {
      var n := |events| - 1;
      LatestOfOneLog(events[..n]);
      assert events == events[..n] + [events[n]];
    }
  }

  /** Merging two windows of one log lists exactly what either of them holds. */
  lemma MergeListsUnion(merged: seq<LogEvent>, current: seq<LogEvent>, incoming: seq<LogEvent>)
    requires IsMerge(merged, current, incoming) && OneLog(current + incoming)
    ensures Lists(merged, Content(current) + Content(incoming))
  {
    var given := current + incoming;
    LatestOfOneLog(given);
    LatestIsKeyed(given);
    forall e
      ensures e in merged <==> e in Content(current) + Content(incoming)
    {
      assert e in given <==> e in current || e in incoming;
      if e in merged {
        assert Latest(given)[e.eventId] == e;
      }
      if e in given {
        assert Latest(given)[e.eventId] in merged;
      }
    }
    forall i, j | 0 <= i < j < |merged|
      ensures merged[i].globalSequence < merged[j].globalSequence
    {
      assert merged[i] in given && merged[j] in given;
    }
  }

  // ---------------------------------------------------------------- join laws

  lemma OneLogPart(part: seq<LogEvent>, whole: seq<LogEvent>)
    requires OneLog(whole) && Content(part) <= Content(whole)
    ensures OneLog(part)
  {
    forall e | e in part
      ensures e in whole
    {
      assert e in Content(part);
    }
  }

  lemma MergeIsCommutative(ab: seq<LogEvent>, ba: seq<LogEvent>, a: seq<LogEvent>, b: seq<LogEvent>)
    requires IsMerge(ab, a, b) && IsMerge(ba, b, a) && OneLog(a + b)
    ensures ab == ba
  {
    OneLogPart(b + a, a + b);
    MergeListsUnion(ab, a, b);
    MergeListsUnion(ba, b, a);
    assert Content(a) + Content(b) == Content(b) + Content(a);
    ListIsUnique(ab, ba, Content(a) + Content(b));
  }

  lemma MergeIsAssociative(
    ab: seq<LogEvent>, left: seq<LogEvent>, bc: seq<LogEvent>, right: seq<LogEvent>,
    a: seq<LogEvent>, b: seq<LogEvent>, c: seq<LogEvent>)
    requires IsMerge(ab, a, b) && IsMerge(left, ab, c)
    requires IsMerge(bc, b, c) && IsMerge(right, a, bc)
    requires OneLog(a + b + c)
    ensures left == right
    ensures Lists(left, Content(a) + Content(b) + Content(c))
  {
    var whole := a + b + c;
    OneLogPart(a + b, whole);
    OneLogPart(b + c, whole);
    MergeListsUnion(ab, a, b);
    MergeListsUnion(bc, b, c);
    ListedContent(ab, Content(a) + Content(b));
    ListedContent(bc, Content(b) + Content(c));
    OneLogPart(ab + c, whole);
    OneLogPart(a + bc, whole);
    hide IsMerge, OneLog, Lists;
    MergeListsUnion(left, ab, c);
    MergeListsUnion(right, a, bc);
    assert Content(a) + (Content(b) + Content(c)) == Content(a) + Content(b) + Content(c);
    ListIsUnique(left, right, Content(a) + Content(b) + Content(c));
  }

  lemma ListedContent(a: seq<LogEvent>, content: iset<LogEvent>)
    requires Lists(a, content)
    ensures Content(a) == content
  {
  }

  /** A merged list absorbs any window it already covers, itself included. */
  lemma MergeIsIdempotent(again: seq<LogEvent>, merged: seq<LogEvent>, window: seq<LogEvent>, content: iset<LogEvent>)
    requires Lists(merged, content) && OneLog(merged) && Content(window) <= content
    requires IsMerge(again, merged, window)
    ensures again == merged
  {
    assert Content(merged) == content;
    OneLogPart(merged + window, merged);
    MergeListsUnion(again, merged, window);
    assert content + Content(window) == content;
    ListIsUnique(again, merged, content);
  }

  function Joined(pages: seq<seq<LogEvent>>): seq<LogEvent> {
    if pages == [] then [] else Joined(pages[..|pages| - 1]) + pages[|pages| - 1]
  }

  /** `results[k]` is what has been merged after `k` pages, starting from nothing. */
  ghost predicate Loads(results: seq<seq<LogEvent>>, pages: seq<seq<LogEvent>>) {
    && |results| == |pages| + 1 && results[0] == []
    && forall k :: 0 <= k < |pages| ==> IsMerge(results[k + 1], results[k], pages[k])
  }

  /** Pages that cover a log rebuild it, in whatever order and overlap they arrive. */
  lemma {:induction false} PagesRebuildTheLog(results: seq<seq<LogEvent>>, pages: seq<seq<LogEvent>>)
    requires Loads(results, pages) && OneLog(Joined(pages))
    ensures Lists(results[|pages|], Content(Joined(pages)))
    decreases |pages|
  {
    if pages != [] {
      var n := |pages| - 1;
      var before, page := Joined(pages[..n]), pages[n];
      OneLogPart(before, Joined(pages));
      PagesRebuildTheLog(results[..n + 1], pages[..n]);
      assert Content(results[n]) == Content(before);
      assert Content(Joined(pages)) == Content(before) + Content(page);
      OneLogPart(results[n] + page, Joined(pages));
      MergeListsUnion(results[n + 1], results[n], page);
    }
  }
}
