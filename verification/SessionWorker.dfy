/**
 The producer of Session events: executeSessionAssignment of
 apps/runner-daemon/src/session/session-worker.ts, with its hand-kept sequence counter and its
 lazily published response_started, checked against the projection that consumes the events.
 */
module SessionWorker {
  import opened Common
  import opened Utf16
  import opened ThreadScan
  import opened SessionProtocol

  /** The fields of a claimed assignment that decide which events are produced. */
  datatype Assignment = Assignment(
    sessionId: string,
    providerKey: string,
    runnerId: string,
    leaseProviderSessionId: Option<string>,
    messageId: string,
    hasWorkflowSkills: bool,
    hasExecution: bool)

  /** How the provider process ends: its promise rejects, or it exits with output. */
  datatype Settlement = Rejected(aborted: bool) | Exited(exitCode: int, stdout: Text)

  /** Everything the worker meets while it runs. */
  datatype Surroundings = Surroundings(
    read: Reader,
    workspaceReady: bool,
    skillsDelivered: bool,
    adapterAccepts: bool,
    absoluteExecutable: bool,
    controlPlaneKnown: bool,
    observed: seq<Text>,      // stdout chunks seen before the process settles
    settlement: Settlement,
    resultParses: bool,
    replies: bool,            // the output holds an assistant message
    late: seq<Text>)          // stdout chunks seen after it settled

  /** An event without the identity and the number its source gives it. */
  datatype Body = Body(kind: Kind, messageId: Option<string>, payload: Payload)

  function BodyOf(e: Event): Body {
    Body(e.kind, e.messageId, e.payload)
  }

  function Bodies(events: seq<Event>): (bodies: seq<Body>)
    ensures |bodies| == |events|
  {
    seq(|events|, i requires 0 <= i < |events| => BodyOf(events[i]))
  }

  function Flatten<T>(batches: seq<seq<T>>): seq<T> {
    if batches == [] then [] else Flatten(batches[..|batches| - 1]) + batches[|batches| - 1]
  }

  lemma FlattenSnoc<T>(batches: seq<seq<T>>, batch: seq<T>)
    ensures Flatten(batches + [batch]) == Flatten(batches) + batch
  {
    assert (batches + [batch])[..|batches|] == batches;
  }

  // ---------------------------------------------------------------- what is produced

  function SourceId(a: Assignment): string {
    a.runnerId + ":" + a.messageId
  }

  predicate Supported(providerKey: string) {
    providerKey in {"codex", "copilot", "pi"}
  }

  /** The provider command can be built. */
  predicate CommandBuilds(a: Assignment, env: Surroundings) {
    && Supported(a.providerKey) && env.adapterAccepts && env.absoluteExecutable
    && (a.providerKey == "copilot" && Truthy(a.leaseProviderSessionId) ==>
          a.leaseProviderSessionId == Some(a.sessionId))
    && (a.hasExecution ==> env.controlPlaneKnown)
  }

  /** A fresh Codex session learns its provider id from the output stream. */
  predicate Listens(a: Assignment) {
    a.providerKey == "codex" && !Truthy(a.leaseProviderSessionId)
  }

  function StartedBody(a: Assignment): Body {
    Body(ResponseStarted, Some(a.messageId), Opaque)
  }

  /** The batch that announces a response; a resumed lease does not announce its provider again. */
  function StartBatch(a: Assignment, id: Option<string>): seq<Body> {
    if !Truthy(a.leaseProviderSessionId) && Truthy(id) then
      [Body(ProviderStarted, None, ProviderSession(id.value)), StartedBody(a)]
    else [StartedBody(a)]
  }

  function SessionFailure(a: Assignment, code: string): Body {
    Body(FailedEvent, Some(a.messageId), Failure(code))
  }

  /** The batch published before the process settles, if any. */
  function Opening(a: Assignment, env: Surroundings): Option<seq<Body>> {
    if Truthy(a.leaseProviderSessionId) then Some(StartBatch(a, None))
    else if a.providerKey == "copilot" || a.providerKey == "pi" then Some(StartBatch(a, Some(a.sessionId)))
    else
      var id := Published(env.read, [], env.observed);
      if Truthy(id) then Some(StartBatch(a, id)) else None
  }

  function Nullish(first: Option<string>, second: Option<string>): Option<string> {
    if first.Some? then first else second
  }

  /** The provider session id the adapter reports for a finished process. */
  function ParsedId(a: Assignment, env: Surroundings, stdout: Text): Option<string> {
    var id := if a.providerKey == "codex" then Scan(env.read, stdout)
              else if Truthy(a.leaseProviderSessionId) then a.leaseProviderSessionId else Some(a.sessionId);
    if Truthy(id) then id else None
  }

  /** The batch that reports a process that did not yield a usable result. */
  function Breakdown(a: Assignment, announced: bool, code: string): seq<Body> {
    if announced then [Body(ResponseFailed, Some(a.messageId), Failure(code))] else [SessionFailure(a, code)]
  }

  function Verdict(a: Assignment, exitCode: int): Body {
    if exitCode == 0 then Body(ResponseCompleted, Some(a.messageId), Opaque)
    else if a.providerKey == "pi" && exitCode == 124 then Body(ResponseCanceled, Some(a.messageId), Opaque)
    else Body(ResponseFailed, Some(a.messageId), Failure("provider_failed"))
  }

  /** The batches appended once the process has settled. */
  function Closing(a: Assignment, env: Surroundings, announced: bool): seq<seq<Body>> {
    match env.settlement
    case Rejected(true) =>
      var canceled := Body(ResponseCanceled, Some(a.messageId), Opaque);
      [if announced then [canceled] else [StartedBody(a), canceled]]
    case Rejected(false) => [Breakdown(a, announced, "provider_start_failed")]
    case Exited(exitCode, stdout) =>
      if !env.resultParses then [Breakdown(a, announced, "provider_result_invalid")]
      else
        var id := Nullish(Nullish(ParsedId(a, env, stdout), a.leaseProviderSessionId), Some(a.sessionId));
        var reply := if env.replies then [Body(AgentMessageChunk, Some(a.messageId), Opaque)] else [];
        (if announced then [] else [StartBatch(a, id)]) + [reply + [Verdict(a, exitCode)]]
  }

  /** The process runs at all. */
  predicate Launches(a: Assignment, env: Surroundings) {
    env.workspaceReady && (a.hasWorkflowSkills ==> env.skillsDelivered) && CommandBuilds(a, env)
  }

  /** Everything appended as long as nothing is observed after the process settled. */
  function Script(a: Assignment, env: Surroundings): seq<seq<Body>> {
    if !env.workspaceReady then [[SessionFailure(a, "workspace_unavailable")]]
    else if a.hasWorkflowSkills && !env.skillsDelivered then
      [[SessionFailure(a, "workflow_skill_projection_failed")]]
    else if !CommandBuilds(a, env) then [[SessionFailure(a, "provider_unavailable")]]
    else
      var opening := Opening(a, env);
      (if opening.Some? then [opening.value] else []) + Closing(a, env, opening.Some?)
  }

  /** The observer's buffer after some chunks that completed no record. */
  function BufferAfter(buffer: Text, chunks: seq<Text>): Text
    decreases |chunks|
  {
    if chunks == [] then buffer else BufferAfter(KeepLast(buffer + chunks[0]), chunks[1..])
  }

  /** The response was announced before the worker returned. */
  predicate Announced(a: Assignment, env: Surroundings) {
    Opening(a, env).Some? || (env.settlement.Exited? && env.resultParses)
  }

  /** The id a chunk that arrives after the process settled would still publish. */
  function LateId(a: Assignment, env: Surroundings): Option<string> {
    if Launches(a, env) && Listens(a) && !Announced(a, env) then
      Published(env.read, BufferAfter([], env.observed), env.late)
    else None
  }

  /** All batches, including the one a late chunk adds. */
  function FullScript(a: Assignment, env: Surroundings): seq<seq<Body>> {
    Script(a, env) + if Truthy(LateId(a, env)) then [StartBatch(a, LateId(a, env))] else []
  }

  // ---------------------------------------------------------------- the worker

  predicate FromSource(a: Assignment, events: seq<Event>) {
    forall i :: 0 <= i < |events| ==> events[i].sessionId == a.sessionId && events[i].sourceId == SourceId(a)
  }

  /** Consecutive source sequence numbers. */
  predicate NumberedFrom(first: nat, events: seq<Event>) {
    forall i :: 0 <= i < |events| ==> events[i].sourceSequence == first + i
  }

  function Batches(batches: seq<seq<Event>>): (bodies: seq<seq<Body>>)
    ensures |bodies| == |batches|
  {
    seq(|batches|, i requires 0 <= i < |batches| => Bodies(batches[i]))
  }

  /** One batch was appended, with these bodies, numbered from `first` up to `next`. */
  predicate Appends(
    a: Assignment, bodies: seq<Body>, before: seq<seq<Event>>, after: seq<seq<Event>>, first: nat, next: nat)
  {
    && |after| == |before| + 1 && after[..|before|] == before
    && var batch := after[|before|];
    && Bodies(batch) == bodies && FromSource(a, batch)
    && NumberedFrom(first, batch) && next == first + |batch|
  }

  /** A batch that continues the numbering. */
  lemma AppendContinues(
    a: Assignment, bodies: seq<Body>, before: seq<seq<Event>>, after: seq<seq<Event>>, first: nat, next: nat)
    requires Appends(a, bodies, before, after, first, next)
    requires FromSource(a, Flatten(before))
    ensures Batches(after) == Batches(before) + [bodies]
    ensures FromSource(a, Flatten(after)) && |Flatten(after)| == |Flatten(before)| + |bodies|
    ensures NumberedFrom(1, Flatten(before)) && first == |Flatten(before)| + 1 ==>
              NumberedFrom(1, Flatten(after)) && next == |Flatten(after)| + 1
    ensures |Flatten(before)| > 0 && first == 1 && bodies != [] ==> !NumberedFrom(1, Flatten(after))
  {
    var batch := after[|before|];
    assert after == before + [batch];
    FlattenSnoc(before, batch);
    assert Flatten(after)[|Flatten(before)|..] == batch;
    if bodies != [] {
      assert Flatten(after)[|Flatten(before)|] == batch[0];
    }
  }

  class Worker {
    const a: Assignment
    var sequence: nat
    var responseStarted: bool
    var codexOutput: Text
    var log: seq<seq<Event>>   // the batches handed to appendEvents, in order

    constructor (a: Assignment)
      ensures this.a == a && sequence == 1 && !responseStarted && codexOutput == [] && log == []
    {
      this.a := a;
      sequence, responseStarted, codexOutput, log := 1, false, [], [];
    }

    /** The counter is the length of the log plus one, and every number so far is its position. */
    ghost predicate Valid()
      reads this
    {
      && FromSource(a, Flatten(log))
      && NumberedFrom(1, Flatten(log))
      && (!responseStarted ==> sequence == 1)
      && (responseStarted ==> sequence == |Flatten(log)| + 1)
    }

    /** One event carrying the next number; the clock is the environment's. */
    method NextEvent(body: Body) returns (e: Event)
      modifies this`sequence
      ensures BodyOf(e) == body && e.sessionId == a.sessionId && e.sourceId == SourceId(a)
      ensures e.sourceSequence == old(sequence) && sequence == old(sequence) + 1
    {
      var now: nat := *;
      e := Event(a.sessionId, SourceId(a), sequence, body.kind, body.messageId, body.payload, now);
      sequence := sequence + 1;
    }

    /** Announces the response once; later calls change nothing. */
    method PublishResponseStarted(id: Option<string>)
      modifies this
      ensures old(responseStarted) ==> unchanged(this)
      ensures !old(responseStarted) ==>
                responseStarted && codexOutput == old(codexOutput)
                && Appends(a, StartBatch(a, id), old(log), log, old(sequence), sequence)
    {
      if responseStarted { return; }
      responseStarted := true;
      var events := [];
      if !Truthy(a.leaseProviderSessionId) && Truthy(id) {
        var provider := NextEvent(Body(ProviderStarted, None, ProviderSession(id.value)));
        events := [provider];
      }
      var started := NextEvent(StartedBody(a));
      events := events + [started];
      log := log + [events];
      assert Bodies(events) == StartBatch(a, id);
    }

    /** The stdout observer: keeps a bounded tail and announces the first thread id it reads. */
    method OnStdoutChunk(read: Reader, chunk: Text)
      requires !responseStarted
      modifies this
      ensures codexOutput == KeepLast(old(codexOutput) + chunk)
      ensures var found := Scan(read, codexOutput);
              if Truthy(found) then
                responseStarted && Appends(a, StartBatch(a, found), old(log), log, old(sequence), sequence)
              else !responseStarted && log == old(log) && sequence == old(sequence)
    {
      codexOutput := KeepLast(codexOutput + chunk);
      var found := Scan(read, codexOutput);
      if Truthy(found) {
        PublishResponseStarted(found);
      }
    }

    /** The chunks of one stretch of output; nothing is looked at once a response was announced. */
    method Observe(read: Reader, chunks: seq<Text>)
      requires !responseStarted
      modifies this
      ensures var found := Published(read, old(codexOutput), chunks);
              if Truthy(found) then
                responseStarted && Appends(a, StartBatch(a, found), old(log), log, old(sequence), sequence)
              else
                && !responseStarted && log == old(log) && sequence == old(sequence)
                && codexOutput == BufferAfter(old(codexOutput), chunks)
    {
      var i := 0;
      while i < |chunks| && !responseStarted
        invariant i <= |chunks|
        invariant !responseStarted ==>
                    && log == old(log) && sequence == old(sequence)
                    && Published(read, old(codexOutput), chunks) == Published(read, codexOutput, chunks[i..])
                    && BufferAfter(old(codexOutput), chunks) == BufferAfter(codexOutput, chunks[i..])
        invariant responseStarted ==>
                    var found := Published(read, old(codexOutput), chunks);
                    Truthy(found) && Appends(a, StartBatch(a, found), old(log), log, old(sequence), sequence)
      {
        assert chunks[i..][0] == chunks[i] && chunks[i..][1..] == chunks[i + 1..];
        OnStdoutChunk(read, chunks[i]);
        i := i + 1;
      }
    }

    /** Appends events that carry the counter's numbers. */
    method Report(bodies: seq<Body>)
      modifies this`sequence, this`log
      ensures Appends(a, bodies, old(log), log, old(sequence), sequence)
    {
      var events: seq<Event> := [];
      for i := 0 to |bodies|
        invariant log == old(log)
        invariant Bodies(events) == bodies[..i] && FromSource(a, events)
        invariant NumberedFrom(old(sequence), events) && sequence == old(sequence) + |events|
      {
        var e := NextEvent(bodies[i]);
        events := events + [e];
      }
      log := log + [events];
    }

    /** failureEvent: a lone session failure whose number is written as 1. */
    method ReportSessionFailure(code: string)
      modifies this`log
      ensures Appends(a, [SessionFailure(a, code)], old(log), log, 1, 2)
    {
      var now: nat := *;
      var e := Event(a.sessionId, SourceId(a), 1, FailedEvent, Some(a.messageId), Failure(code), now);
      assert Bodies([e]) == [SessionFailure(a, code)];
      log := log + [[e]];
    }

    /** cancellationEvents: an announcement and a cancellation whose numbers are written as 1 and 2. */
    method ReportCancellation()
      modifies this`log
      ensures Appends(a, [StartedBody(a), Body(ResponseCanceled, Some(a.messageId), Opaque)], old(log), log, 1, 3)
    {
      var now: nat := *;
      var source, message := SourceId(a), Some(a.messageId);
      var started := Event(a.sessionId, source, 1, ResponseStarted, message, Opaque, now);
      var canceled := Event(a.sessionId, source, 2, ResponseCanceled, message, Opaque, now);
      assert Bodies([started, canceled]) == [StartedBody(a), Body(ResponseCanceled, message, Opaque)];
      log := log + [[started, canceled]];
    }

    /** A response_failed once announced, and a session failure before. */
    method ReportBreakdown(code: string)
      requires Valid()
      requires !responseStarted ==> log == []
      modifies this`sequence, this`log
      ensures Valid() && Batches(log) == old(Batches(log)) + [Breakdown(a, responseStarted, code)]
    {
      if responseStarted {
        Report([Body(ResponseFailed, Some(a.messageId), Failure(code))]);
        AppendContinues(a, Breakdown(a, true, code), old(log), log, old(sequence), sequence);
      } else {
        ReportSessionFailure(code);
        AppendContinues(a, Breakdown(a, false, code), old(log), log, 1, 2);
      }
    }

    /** What happens from the moment the process has settled. */
    method Settle(env: Surroundings)
      requires Valid()
      requires !responseStarted ==> log == []
      modifies this
      ensures Valid() && codexOutput == old(codexOutput)
      ensures Batches(log) == old(Batches(log)) + Closing(a, env, old(responseStarted))
      ensures responseStarted == (old(responseStarted) || (env.settlement.Exited? && env.resultParses))
    {
      var message := Some(a.messageId);
      match env.settlement
      case Rejected(aborted) =>
        if !aborted {
          ReportBreakdown("provider_start_failed");
        } else if responseStarted {
          Report([Body(ResponseCanceled, message, Opaque)]);
          AppendContinues(a, [Body(ResponseCanceled, message, Opaque)], old(log), log, old(sequence), sequence);
        } else {
          ReportCancellation();
          AppendContinues(a, [StartedBody(a), Body(ResponseCanceled, message, Opaque)], old(log), log, 1, 3);
        }
      case Exited(exitCode, stdout) =>
        if !env.resultParses {
          ReportBreakdown("provider_result_invalid");
        } else {
          var parsed := ParsedId(a, env, stdout);
          var id := Nullish(Nullish(parsed, a.leaseProviderSessionId), Some(a.sessionId));
          PublishResponseStarted(id);
          if !old(responseStarted) {
            AppendContinues(a, StartBatch(a, id), old(log), log, old(sequence), sequence);
          }
          Conclude(env.replies, exitCode);
        }
    }

    /** The reply, if there is one, and the verdict on the exit code. */
    method Conclude(replies: bool, exitCode: int)
      requires Valid() && responseStarted
      modifies this`sequence, this`log
      ensures Valid()
      ensures Batches(log) == old(Batches(log))
           + [(if replies then [Body(AgentMessageChunk, Some(a.messageId), Opaque)] else []) + [Verdict(a, exitCode)]]
    {
      var message := Some(a.messageId);
      var bodies := [];
      if replies {
        bodies := [Body(AgentMessageChunk, message, Opaque)];
      }
      var boundedAbort := a.providerKey == "pi" && exitCode == 124;
      bodies := bodies + [
        if exitCode == 0 then Body(ResponseCompleted, message, Opaque)
        else if boundedAbort then Body(ResponseCanceled, message, Opaque)
        else Body(ResponseFailed, message, Failure("provider_failed"))];
      Report(bodies);
      AppendContinues(a, bodies, old(log), log, old(sequence), sequence);
    }

    /** Everything between the launch and the moment the process settles. */
    method Open(env: Surroundings)
      requires Valid() && !responseStarted && log == [] && codexOutput == []
      requires CommandBuilds(a, env)
      modifies this
      ensures Valid() && (!responseStarted ==> log == [])
      ensures responseStarted == Opening(a, env).Some?
      ensures Batches(log) == if responseStarted then [Opening(a, env).value] else []
      ensures !responseStarted ==> Listens(a) && codexOutput == BufferAfter([], env.observed)
    {
      ghost var id: Option<string>;
      if Truthy(a.leaseProviderSessionId) {
        id := None;
        PublishResponseStarted(None);
      } else if a.providerKey == "copilot" || a.providerKey == "pi" {
        id := Some(a.sessionId);
        PublishResponseStarted(Some(a.sessionId));
      } else {
        id := Published(env.read, [], env.observed);
        Observe(env.read, env.observed);
      }
      if responseStarted {
        AppendContinues(a, StartBatch(a, id), old(log), log, old(sequence), sequence);
      }
    }

    /**
     The whole execution. Its batches are the script's; they carry 1, 2, 3, ... exactly when no chunk
     that arrives after the process settled completes a thread record nobody has announced.
     */
    method Execute(env: Surroundings)
      requires Valid() && !responseStarted && log == [] && codexOutput == []
      modifies this
      ensures Batches(log) == FullScript(a, env)
      ensures FromSource(a, Flatten(log))
      ensures NumberedFrom(1, Flatten(log)) <==> !Truthy(LateId(a, env))
    {
      if !env.workspaceReady {
        ReportSessionFailure("workspace_unavailable");
        AppendContinues(a, [SessionFailure(a, "workspace_unavailable")], old(log), log, 1, 2);
        return;
      }
      if a.hasWorkflowSkills && !env.skillsDelivered {
        ReportSessionFailure("workflow_skill_projection_failed");
        AppendContinues(a, [SessionFailure(a, "workflow_skill_projection_failed")], old(log), log, 1, 2);
        return;
      }
      if !CommandBuilds(a, env) {
        ReportSessionFailure("provider_unavailable");
        AppendContinues(a, [SessionFailure(a, "provider_unavailable")], old(log), log, 1, 2);
        return;
      }
      Open(env);
      Settle(env);
      assert Batches(log) == Script(a, env);
      if Listens(a) && !responseStarted {
        label settled:
        assert |Flatten(log)| > 0 by {
          ScriptIsNotEmpty(a, env, log);
        }
        Observe(env.read, env.late);
        if responseStarted {
          AppendContinues(a, StartBatch(a, LateId(a, env)), old@settled(log), log, 1, sequence);
        }
      }
    }
  }

  /** A log with the script's bodies holds at least one event. */
  lemma ScriptIsNotEmpty(a: Assignment, env: Surroundings, log: seq<seq<Event>>)
    requires Batches(log) == Script(a, env)
    ensures |Flatten(log)| > 0
  {
    ScriptForms(a, env);
    hide Script, AnnouncedId, Flatten;
    FlattenShort(log);
    assert Bodies(log[0]) == Script(a, env)[0];
    assert |Bodies(log[0])| > 0;
  }

  // ---------------------------------------------------------------- producer meets consumer

  predicate ClosingKind(kind: Kind) {
    kind == ResponseCompleted || kind == ResponseCanceled || kind == ResponseFailed || kind == FailedEvent
  }

  /** A closing event for the assignment's message; failures carry a code. */
  predicate ClosingBody(a: Assignment, body: Body) {
    && ClosingKind(body.kind) && body.messageId == Some(a.messageId)
    && (body.kind == ResponseFailed || body.kind == FailedEvent ==> body.payload.Failure?)
  }

  /** The last event of the script. */
  function LastBody(a: Assignment, env: Surroundings): Body {
    var script := Script(a, env);
    Last(script[|script| - 1])
  }

  function Last<T>(batch: seq<T>): T
    requires batch != []
  {
    batch[|batch| - 1]
  }

  // The three forms a script takes.

  predicate LoneFailure(a: Assignment, script: seq<seq<Body>>) {
    |script| == 1 && |script[0]| == 1 && script[0][0].kind == FailedEvent && ClosingBody(a, script[0][0])
  }

  predicate LoneCancellation(a: Assignment, script: seq<seq<Body>>) {
    script == [[StartedBody(a), Body(ResponseCanceled, Some(a.messageId), Opaque)]]
  }

  predicate Conclusion(a: Assignment, batch: seq<Body>) {
    && 1 <= |batch| <= 2 && (|batch| == 2 ==> batch[0].kind == AgentMessageChunk)
    && ClosingBody(a, batch[|batch| - 1]) && batch[|batch| - 1].kind != FailedEvent
  }

  predicate Exchange(a: Assignment, id: Option<string>, script: seq<seq<Body>>) {
    |script| == 2 && script[0] == StartBatch(a, id) && Conclusion(a, script[1])
  }

  /** The id the announcement is made with. */
  function AnnouncedId(a: Assignment, env: Surroundings): Option<string> {
    if Truthy(a.leaseProviderSessionId) then None
    else if a.providerKey == "copilot" || a.providerKey == "pi" then Some(a.sessionId)
    else if Truthy(Published(env.read, [], env.observed)) then Published(env.read, [], env.observed)
    else if env.settlement.Rejected? then None
    else
      Nullish(Nullish(ParsedId(a, env, env.settlement.stdout), a.leaseProviderSessionId), Some(a.sessionId))
  }

  lemma ScriptForms(a: Assignment, env: Surroundings)
    ensures var script := Script(a, env);
            LoneFailure(a, script) || LoneCancellation(a, script) || Exchange(a, AnnouncedId(a, env), script)
  {
    hide StartBatch;
    hide Published;
    hide ParsedId;
    if Launches(a, env) {
      match env.settlement
      case Rejected(aborted) =>
      case Exited(exitCode, stdout) =>
        var verdict := Verdict(a, exitCode);
        assert ClosingBody(a, verdict) && verdict.kind != FailedEvent;
        if env.resultParses && Opening(a, env).None? {
          assert Script(a, env)[0] == StartBatch(a, AnnouncedId(a, env));
        }
    }
  }

  lemma FlattenShort<T>(batches: seq<seq<T>>)
    requires 1 <= |batches| <= 2
    ensures Flatten(batches) == if |batches| == 1 then batches[0] else batches[0] + batches[1]
  {
    FlattenSnoc([], batches[0]);
    assert [] + [batches[0]] == [batches[0]];
    if |batches| == 2 {
      FlattenSnoc([batches[0]], batches[1]);
      assert [batches[0]] + [batches[1]] == batches;
    } else {
      assert batches == [batches[0]];
    }
  }

  /** The batch has one closing event, its last. */
  predicate OnlyLastCloses(batch: seq<Body>) {
    |batch| > 0 && forall i :: 0 <= i < |batch| ==> (ClosingKind(batch[i].kind) <==> i == |batch| - 1)
  }

  lemma OnlyLastClosesAfter(first: seq<Body>, second: seq<Body>)
    requires OnlyLastCloses(second) && forall i :: 0 <= i < |first| ==> !ClosingKind(first[i].kind)
    ensures OnlyLastCloses(first + second) && Last(first + second) == Last(second)
  {
    var all := first + second;
    forall i | 0 <= i < |all|
      ensures ClosingKind(all[i].kind) <==> i == |all| - 1
    {
      assert all[i] == if i < |first| then first[i] else second[i - |first|];
    }
  }

  lemma OneEndInForm(a: Assignment, id: Option<string>, script: seq<seq<Body>>)
    requires LoneFailure(a, script) || LoneCancellation(a, script) || Exchange(a, id, script)
    ensures OnlyLastCloses(Flatten(script)) && Last(Flatten(script)) == Last(script[|script| - 1])
  {
    hide Flatten, StartBatch, Conclusion, OnlyLastCloses, ClosingKind;
    FlattenShort(script);
    if Exchange(a, id, script) {
      StartBatchOpens(a, id);
      ConclusionCloses(a, script[1]);
      OnlyLastClosesAfter(script[0], script[1]);
    } else {
      LoneBatchCloses(a, script);
    }
  }

  lemma LoneBatchCloses(a: Assignment, script: seq<seq<Body>>)
    requires LoneFailure(a, script) || LoneCancellation(a, script)
    ensures |script| == 1 && OnlyLastCloses(script[0])
  {
  }

  lemma StartBatchOpens(a: Assignment, id: Option<string>)
    ensures StartBatch(a, id) != []
    ensures forall i :: 0 <= i < |StartBatch(a, id)| ==> !ClosingKind(StartBatch(a, id)[i].kind)
  {
  }

  lemma ConclusionCloses(a: Assignment, batch: seq<Body>)
    requires Conclusion(a, batch)
    ensures OnlyLastCloses(batch)
  {
  }

  lemma ScriptEndsOnce(a: Assignment, env: Surroundings)
    ensures OnlyLastCloses(Flatten(Script(a, env))) && Last(Flatten(Script(a, env))) == LastBody(a, env)
  {
    ScriptForms(a, env);
    assert LastBody(a, env) == Last(Script(a, env)[|Script(a, env)| - 1]);
    hide Script;
    hide AnnouncedId;
    OneEndInForm(a, AnnouncedId(a, env), Script(a, env));
  }

  lemma OpenEndNeverCloses(bodies: seq<Body>, late: seq<Body>)
    requires late != [] && forall i :: 0 <= i < |late| ==> !ClosingKind(late[i].kind)
    ensures !OnlyLastCloses(bodies + late)
  {
    var all := bodies + late;
    assert all[|all| - 1] == late[|late| - 1];
  }

  /**
   The script reports exactly one end, and reports it last. So does the whole execution, if and only
   if no late chunk publishes.
   */
  lemma OneClosingEventAndLast(a: Assignment, env: Surroundings)
    ensures OnlyLastCloses(Flatten(Script(a, env))) && Last(Flatten(Script(a, env))) == LastBody(a, env)
    ensures OnlyLastCloses(Flatten(FullScript(a, env))) <==> !Truthy(LateId(a, env))
  {
    ScriptEndsOnce(a, env);
    hide Script, OnlyLastCloses, LateId, StartBatch, Flatten;
    if Truthy(LateId(a, env)) {
      var late := StartBatch(a, LateId(a, env));
      FlattenSnoc(Script(a, env), late);
      StartBatchOpens(a, LateId(a, env));
      OpenEndNeverCloses(Flatten(Script(a, env)), late);
    } else {
      assert FullScript(a, env) == Script(a, env);
    }
  }

  /** The claim left the session dispatched with the assignment's message active. */
  predicate Awaiting(a: Assignment, s: Session) {
    s.id == a.sessionId && s.state == Dispatched && s.activeMessageId == Some(a.messageId) && Shape(s)
  }

  predicate Answering(a: Assignment, s: Session) {
    s.id == a.sessionId && s.state == Running && s.activeMessageId == Some(a.messageId) && Shape(s)
  }

  /** The session a closing event leaves behind. */
  predicate Ended(a: Assignment, closing: Body, s: Session) {
    && Shape(s)
    && (if closing.kind == ResponseCompleted || closing.kind == ResponseCanceled then
          s.state == Ready && s.lastMessageId == Some(a.messageId)
        else
          s.state == Failed && closing.payload.Failure? && s.failureCode == Some(closing.payload.code))
  }

  lemma ProjectOne(s: Session, e: Event)
    ensures Project(s, [e]) == Apply(s, e)
  {
    assert [e][..0] == [];
  }

  lemma ProjectTwo(s: Session, e: Event, f: Event)
    ensures Project(s, [e, f]) == match Apply(s, e) case Ok(t) => Apply(t, f) case Err(x) => Err(x)
  {
    ProjectOne(s, e);
    assert [e, f][..1] == [e];
  }

  lemma AnnouncementAccepted(a: Assignment, id: Option<string>, s: Session, events: seq<Event>)
    requires Awaiting(a, s) && FromSource(a, events) && Bodies(events) == StartBatch(a, id)
    ensures Project(s, events).Ok? && Answering(a, Project(s, events).value)
  {
    if |events| == 1 {
      assert events == [events[0]] && BodyOf(events[0]) == StartBatch(a, id)[0];
      ProjectOne(s, events[0]);
    } else {
      assert events == [events[0], events[1]];
      assert BodyOf(events[0]) == StartBatch(a, id)[0] && BodyOf(events[1]) == StartBatch(a, id)[1];
      ProjectTwo(s, events[0], events[1]);
    }
  }

  /** A single closing event, from a running session or, for a session failure, a dispatched one. */
  lemma ClosingAccepted(a: Assignment, s: Session, e: Event)
    requires e.sessionId == a.sessionId && ClosingBody(a, BodyOf(e))
    requires Answering(a, s) || (Awaiting(a, s) && e.kind == FailedEvent)
    ensures Apply(s, e).Ok? && Ended(a, BodyOf(e), Apply(s, e).value)
  {
  }

  lemma ConclusionAccepted(a: Assignment, s: Session, events: seq<Event>)
    requires Answering(a, s) && FromSource(a, events) && Conclusion(a, Bodies(events))
    ensures Project(s, events).Ok? && Ended(a, BodyOf(events[|events| - 1]), Project(s, events).value)
  {
    var e := events[|events| - 1];
    assert BodyOf(e) == Bodies(events)[|events| - 1];
    if |events| == 1 {
      assert events == [e];
      ProjectOne(s, e);
      ClosingAccepted(a, s, e);
    } else {
      assert events == [events[0], e] && BodyOf(events[0]) == Bodies(events)[0];
      ProjectTwo(s, events[0], e);
      ClosingAccepted(a, Apply(s, events[0]).value, e);
    }
  }

  lemma LoneFailureAccepted(a: Assignment, s: Session, events: seq<Event>)
    requires Awaiting(a, s) && FromSource(a, events) && LoneFailure(a, [Bodies(events)])
    ensures Project(s, events).Ok? && Ended(a, BodyOf(events[0]), Project(s, events).value)
  {
    assert events == [events[0]] && BodyOf(events[0]) == Bodies(events)[0];
    ProjectOne(s, events[0]);
    ClosingAccepted(a, s, events[0]);
  }

  lemma LoneCancellationAccepted(a: Assignment, s: Session, events: seq<Event>)
    requires Awaiting(a, s) && FromSource(a, events) && LoneCancellation(a, [Bodies(events)])
    ensures Project(s, events).Ok? && Ended(a, BodyOf(events[1]), Project(s, events).value)
  {
    var bodies := [Bodies(events)][0];
    assert |bodies| == 2 && bodies[0] == BodyOf(events[0]) && bodies[1] == BodyOf(events[1]);
    assert events == [events[0], events[1]];
    ProjectTwo(s, events[0], events[1]);
    ClosingAccepted(a, Apply(s, events[0]).value, events[1]);
  }

  lemma ExchangeAccepted(a: Assignment, id: Option<string>, s: Session, first: seq<Event>, second: seq<Event>)
    requires Awaiting(a, s) && FromSource(a, first) && FromSource(a, second)
    requires Bodies(first) == StartBatch(a, id) && Conclusion(a, Bodies(second))
    ensures Project(s, first + second).Ok?
    ensures Ended(a, BodyOf(second[|second| - 1]), Project(s, first + second).value)
  {
    hide Apply;
    AnnouncementAccepted(a, id, s, first);
    ProjectConcat(s, first, second);
    ConclusionAccepted(a, Project(s, first).value, second);
  }

  lemma PartsAreFromSource(a: Assignment, first: seq<Event>, second: seq<Event>)
    requires FromSource(a, first + second)
    ensures FromSource(a, first) && FromSource(a, second)
  {
    assert (first + second)[..|first|] == first && (first + second)[|first|..] == second;
  }

  /** Any log in one of the three forms is accepted. */
  lemma FormAccepted(a: Assignment, id: Option<string>, s: Session, script: seq<seq<Body>>, log: seq<seq<Event>>)
    requires LoneFailure(a, script) || LoneCancellation(a, script) || Exchange(a, id, script)
    requires Awaiting(a, s) && Batches(log) == script && FromSource(a, Flatten(log))
    ensures Project(s, Flatten(log)).Ok?
    ensures Ended(a, Last(script[|script| - 1]), Project(s, Flatten(log)).value)
  {
    hide Apply, Project, StartBatch, Flatten, ClosingBody, Ended, Awaiting, FromSource;
    FlattenShort(log);
    var last := log[|log| - 1];
    assert Bodies(last) == script[|script| - 1];
    assert Last(Bodies(last)) == BodyOf(last[|last| - 1]);
    if Exchange(a, id, script) {
      assert Bodies(log[0]) == script[0];
      PartsAreFromSource(a, log[0], last);
      ExchangeAccepted(a, id, s, log[0], last);
    } else {
      assert script == [Bodies(last)];
      if LoneFailure(a, script) {
        LoneFailureAccepted(a, s, last);
      } else {
        LoneCancellationAccepted(a, s, last);
      }
    }
  }

  lemma ScriptAccepted(a: Assignment, env: Surroundings, s: Session, log: seq<seq<Event>>)
    requires Awaiting(a, s) && Batches(log) == Script(a, env) && FromSource(a, Flatten(log))
    ensures Project(s, Flatten(log)).Ok? && Ended(a, LastBody(a, env), Project(s, Flatten(log)).value)
  {
    ScriptForms(a, env);
    assert LastBody(a, env) == Last(Script(a, env)[|Script(a, env)| - 1]);
    hide *;
    FormAccepted(a, AnnouncedId(a, env), s, Script(a, env), log);
  }

  /**
   Producer meets consumer. Every event an execution appends is accepted in order, and the session
   ends in Ready or Failed as the closing event says, if and only if no late chunk publishes.
   */
  lemma ProducerMeetsConsumer(a: Assignment, env: Surroundings, s: Session, log: seq<seq<Event>>)
    requires Awaiting(a, s) && Batches(log) == FullScript(a, env) && FromSource(a, Flatten(log))
    ensures Project(s, Flatten(log)).Ok? <==> !Truthy(LateId(a, env))
    ensures Project(s, Flatten(log)).Ok? ==> Ended(a, LastBody(a, env), Project(s, Flatten(log)).value)
  {
    if !Truthy(LateId(a, env)) {
      assert FullScript(a, env) == Script(a, env);
      ScriptAccepted(a, env, s, log);
    } else {
      LateLogRejected(a, env, s, log);
    }
  }

  lemma LateLogRejected(a: Assignment, env: Surroundings, s: Session, log: seq<seq<Event>>)
    requires Awaiting(a, s) && Batches(log) == FullScript(a, env) && FromSource(a, Flatten(log))
    requires Truthy(LateId(a, env))
    ensures Project(s, Flatten(log)).Err?
  {
    hide Script, Project, Apply, Flatten, StartBatch, FromSource, Awaiting, LateId;
    var id, n := LateId(a, env), |log| - 1;
    assert Listens(a) by { OnlyListenersAreLate(a, env); }
    assert FullScript(a, env) == Script(a, env) + [StartBatch(a, id)];
    assert Batches(log)[n] == StartBatch(a, id) && Batches(log)[..n] == Script(a, env);
    assert Batches(log[..n]) == Script(a, env) && Bodies(log[n]) == StartBatch(a, id);
    assert log[..n] + [log[n]] == log;
    LateBatchBreaks(a, env, id, s, log[..n], log[n]);
  }

  lemma OnlyListenersAreLate(a: Assignment, env: Surroundings)
    ensures Truthy(LateId(a, env)) ==> Listens(a)
  {
  }

  lemma LateBatchBreaks(
      a: Assignment, env: Surroundings, id: Option<string>, s: Session, timely: seq<seq<Event>>, late: seq<Event>)
    requires Awaiting(a, s) && FromSource(a, Flatten(timely + [late]))
    requires Batches(timely) == Script(a, env) && Bodies(late) == StartBatch(a, id) && Listens(a) && Truthy(id)
    ensures Project(s, Flatten(timely + [late])).Err?
  {
    FlattenSnoc(timely, late);
    hide Script, Project, Apply, Flatten, StartBatch, FromSource, Awaiting, Batches, Bodies, LastBody;
    PartsAreFromSource(a, Flatten(timely), late);
    ScriptAccepted(a, env, s, timely);
    ProjectConcat(s, Flatten(timely), late);
    LateBatchRejected(a, id, Project(s, Flatten(timely)).value, late);
  }

  /** Such runs exist: the process fails to start, and its first chunk arrives after that. */
  lemma LateChunkExample() returns (a: Assignment, env: Surroundings)
    ensures Launches(a, env) && Truthy(LateId(a, env))
    ensures Script(a, env) == [[SessionFailure(a, "provider_start_failed")]]
    ensures FullScript(a, env) == Script(a, env) + [[Body(ProviderStarted, None, ProviderSession("t")), StartedBody(a)]]
  {
    var brace: Text := [0x7B];
    var read: Reader := line => if line == brace then Some("t") else None;
    a := Assignment("s", "codex", "r", None, "m", false, false);
    env := Surroundings(read, true, true, true, true, true, [], Rejected(false), false, false, [brace]);
    assert FirstLine(brace) == brace && !Whitespace(brace[0]);
    assert Scan(read, brace) == Some("t");
    assert [] + brace == brace && KeepLast(brace) == brace;
    assert LateId(a, env) == Some("t");
  }

  /** An announcement that comes after the end is refused. */
  lemma LateBatchRejected(a: Assignment, id: Option<string>, s: Session, late: seq<Event>)
    requires s.state in {Ready, Failed}
    requires Listens(a) && Truthy(id) && Bodies(late) == StartBatch(a, id)
    ensures Project(s, late).Err?
  {
    assert late == [late[0], late[1]] && BodyOf(late[0]) == StartBatch(a, id)[0];
    ProjectTwo(s, late[0], late[1]);
  }

  /**
   The provider id announced by a fresh Codex execution that yields a result is the id the adapter reads
   from the capture, however the output was cut, provided no window of it reads otherwise.
   */
  lemma AnnouncedIdIsTheAdaptersId(a: Assignment, env: Surroundings, text: Text)
    requires Launches(a, env) && a.providerKey == "codex" && a.leaseProviderSessionId.None? && a.sessionId != ""
    requires env.settlement.Exited? && env.resultParses && env.settlement.stdout == Captured([], env.observed)
    requires JsonLike(env.read) && Cuts(env.observed, text) && WindowsAgree(env.read, text)
    ensures var found := Scan(env.read, Capture(text));
            var id := if found.Some? then found.value else a.sessionId;
            Script(a, env)[0] == [Body(ProviderStarted, None, ProviderSession(id)), StartedBody(a)]
  {
    hide Scan, WindowsAgree, JsonLike, Capture, Published, Cuts;
    ChunkingIsInvisible(env.read, text);
    CutsAreCaptured(env.observed, text);
    ScanIsNeverEmpty(env.read, Capture(text));
  }

  // ---------------------------------------------------------------- how an execution ends

  /** The provider process runs, as a condition on the inputs alone. */
  predicate Runs(a: Assignment, env: Surroundings) {
    && env.workspaceReady
    && (a.hasWorkflowSkills ==> env.skillsDelivered)
    && a.providerKey in {"codex", "copilot", "pi"}
    && env.adapterAccepts && env.absoluteExecutable
    && (a.providerKey == "copilot" ==> a.leaseProviderSessionId in {None, Some(""), Some(a.sessionId)})
    && (a.hasExecution ==> env.controlPlaneKnown)
  }

  /** The process exited with output the adapter could read. */
  predicate Read(env: Surroundings) {
    env.settlement.Exited? && env.resultParses
  }

  /** It exited with 0, or, for Pi, with the code of a bounded run. */
  predicate ReadAndDone(a: Assignment, env: Surroundings) {
    Read(env) && (env.settlement.exitCode == 0 || (a.providerKey == "pi" && env.settlement.exitCode == 124))
  }

  /** The failure code of each way to fail, or None for an execution that leaves the session ready. */
  function FailureOf(a: Assignment, env: Surroundings): Option<string> {
    if !env.workspaceReady then Some("workspace_unavailable")
    else if a.hasWorkflowSkills && !env.skillsDelivered then Some("workflow_skill_projection_failed")
    else if !Runs(a, env) then Some("provider_unavailable")
    else if env.settlement == Rejected(true) then None
    else if env.settlement == Rejected(false) then Some("provider_start_failed")
    else if !env.resultParses then Some("provider_result_invalid")
    else if env.settlement.exitCode == 0 then None
    else if a.providerKey == "pi" && env.settlement.exitCode == 124 then None
    else Some("provider_failed")
  }

  lemma LaunchesIffRuns(a: Assignment, env: Surroundings)
    ensures Launches(a, env) <==> Runs(a, env)
  {
  }

  /** The event says what became of the execution. */
  predicate Says(a: Assignment, env: Surroundings, last: Body) {
    && (last.kind == ResponseCompleted <==> Runs(a, env) && Read(env) && env.settlement.exitCode == 0)
    && (last.kind in {ResponseCompleted, ResponseCanceled} <==> FailureOf(a, env) == None)
    && (FailureOf(a, env).Some? ==> last.payload == Failure(FailureOf(a, env).value))
    && last.messageId == Some(a.messageId)
  }

  lemma WithoutRun(a: Assignment, env: Surroundings)
    requires !Runs(a, env)
    ensures |Script(a, env)| == 1 && |Script(a, env)[0]| == 1 && Script(a, env)[0][0].kind == FailedEvent
    ensures Says(a, env, LastBody(a, env))
  {
    LaunchesIffRuns(a, env);
    hide CommandBuilds, Runs;
  }

  lemma WithRun(a: Assignment, env: Surroundings)
    requires Runs(a, env)
    ensures Script(a, env)
         == (if Opening(a, env).Some? then [Opening(a, env).value] else []) + Closing(a, env, Opening(a, env).Some?)
  {
    LaunchesIffRuns(a, env);
    hide Opening, Closing, CommandBuilds, Runs;
  }

  lemma ClosingSays(a: Assignment, env: Surroundings, announced: bool)
    requires Runs(a, env)
    ensures var closing := Closing(a, env, announced);
            && closing != [] && closing[|closing| - 1] != []
            && Says(a, env, Last(closing[|closing| - 1]))
  {
    hide StartBatch, ParsedId, Runs;
    assert env.workspaceReady && (a.hasWorkflowSkills ==> env.skillsDelivered) by { RunsReady(a, env); }
  }

  lemma RunsReady(a: Assignment, env: Surroundings)
    requires Runs(a, env)
    ensures env.workspaceReady && (a.hasWorkflowSkills ==> env.skillsDelivered)
  {
  }

  lemma LastBodySays(a: Assignment, env: Surroundings)
    ensures Says(a, env, LastBody(a, env))
  {
    hide Says, Script, Closing, Opening;
    if Runs(a, env) {
      WithRun(a, env);
      ClosingSays(a, env, Opening(a, env).Some?);
    } else {
      WithoutRun(a, env);
    }
  }

  /**
   How an accepted execution ends, by its inputs alone: the session is ready exactly when the process
   ran and was aborted, or ran, could be read and exited with 0 (or, for Pi, with 124); the last event is
   a completion exactly at exit code 0; and each failure has its own code.
   */
  lemma ExecutionEnds(a: Assignment, env: Surroundings, s: Session, log: seq<seq<Event>>)
    requires Awaiting(a, s) && Batches(log) == FullScript(a, env) && FromSource(a, Flatten(log))
    requires Project(s, Flatten(log)).Ok?
    ensures Flatten(log) != []
    ensures var t, last := Project(s, Flatten(log)).value, Last(Flatten(log));
            && (t.state == Ready <==> Runs(a, env) && (env.settlement == Rejected(true) || ReadAndDone(a, env)))
            && (t.state == Ready ==> t.lastMessageId == Some(a.messageId))
            && (t.state == Ready || (t.state == Failed && t.failureCode == FailureOf(a, env)))
            && (last.kind == ResponseCompleted <==> Runs(a, env) && Read(env) && env.settlement.exitCode == 0)
            && last.messageId == Some(a.messageId)
            && forall i :: 0 <= i < |Flatten(log)| ==>
                 Flatten(log)[i].sessionId == a.sessionId && Flatten(log)[i].sourceId == a.runnerId + ":" + a.messageId
  {
    hide Project, Apply, Flatten, StartBatch, Script, Awaiting;
    ProducerMeetsConsumer(a, env, s, log);
    LastBodySays(a, env);
    LastIsLastBody(a, env, log);
  }

  lemma LastIsLastBody(a: Assignment, env: Surroundings, log: seq<seq<Event>>)
    requires Batches(log) == FullScript(a, env) && !Truthy(LateId(a, env))
    ensures Flatten(log) != [] && BodyOf(Last(Flatten(log))) == LastBody(a, env)
  {
    hide Flatten, Script, StartBatch, AnnouncedId, Conclusion, LateId;
    assert FullScript(a, env) == Script(a, env);
    ScriptForms(a, env);
    FlattenShort(log);
    var n := |log| - 1;
    assert Bodies(log[n]) == Script(a, env)[n];
    ConclusionNotEmpty(a, Script(a, env), AnnouncedId(a, env));
    assert Bodies(log[n])[|log[n]| - 1] == BodyOf(log[n][|log[n]| - 1]);
  }

  lemma ConclusionNotEmpty(a: Assignment, script: seq<seq<Body>>, id: Option<string>)
    requires LoneFailure(a, script) || LoneCancellation(a, script) || Exchange(a, id, script)
    ensures script != [] && script[|script| - 1] != []
  {
  }

  predicate Holds(script: seq<seq<Body>>, kind: Kind) {
    exists i, j :: 0 <= i < |script| && 0 <= j < |script[i]| && script[i][j].kind == kind
  }

  /** The reply is appended exactly when the output was read and holds one. */
  lemma ReplyIsAppended(a: Assignment, env: Surroundings)
    ensures Holds(Script(a, env), AgentMessageChunk) <==> Runs(a, env) && Read(env) && env.replies
  {
    if Runs(a, env) {
      WithRun(a, env);
      OpeningIsStart(a, env);
      hide Script, Opening, Runs, StartBatch;
      var opening, closing := Opening(a, env), Closing(a, env, Opening(a, env).Some?);
      var script := Script(a, env);
      var n := |closing| - 1;
      assert script[|script| - 1] == closing[n];
      assert Read(env) && env.replies ==> closing[n][0].kind == AgentMessageChunk;
      StartsHoldNoReply(a);
    } else {
      WithoutRun(a, env);
    }
  }

  lemma StartsHoldNoReply(a: Assignment)
    ensures forall id :: forall j :: 0 <= j < |StartBatch(a, id)| ==> StartBatch(a, id)[j].kind != AgentMessageChunk
  {
  }

  lemma OpeningIsStart(a: Assignment, env: Surroundings)
    ensures Opening(a, env).Some? ==> exists id :: Opening(a, env).value == StartBatch(a, id)
  {
  }

  /** What an execution appends first, by its inputs. */
  lemma AnnouncementByInputs(a: Assignment, env: Surroundings)
    ensures !Runs(a, env) ==> |Script(a, env)| == 1 && |Script(a, env)[0]| == 1
    ensures Runs(a, env) && Truthy(a.leaseProviderSessionId) ==>
              Script(a, env)[0] == [Body(ResponseStarted, Some(a.messageId), Opaque)]
    ensures Runs(a, env) && !Truthy(a.leaseProviderSessionId)
            && a.providerKey in {"copilot", "pi"} && a.sessionId != "" ==>
              Script(a, env)[0] == [Body(ProviderStarted, None, ProviderSession(a.sessionId)),
                                    Body(ResponseStarted, Some(a.messageId), Opaque)]
    ensures Runs(a, env) && Truthy(a.leaseProviderSessionId) ==> !Holds(Script(a, env), ProviderStarted)
  {
    if Runs(a, env) {
      WithRun(a, env);
      hide Script, Published, ParsedId, Runs, Scan;
      if Truthy(a.leaseProviderSessionId) {
        StartsWithoutProvider(a, env);
      }
    } else {
      WithoutRun(a, env);
    }
  }

  lemma StartsWithoutProvider(a: Assignment, env: Surroundings)
    requires Truthy(a.leaseProviderSessionId)
    ensures forall id :: StartBatch(a, id) == [Body(ResponseStarted, Some(a.messageId), Opaque)]
    ensures Opening(a, env).Some?
  {
  }
}
