/**
 The Session protocol: the event projection of packages/shared/src/session.ts, the independent
 transition table of packages/shared/src/state.ts, and what holds over whole event runs.
 */
module SessionProtocol {
  import opened Common

  datatype State =
    | Queued | Dispatched | MessagePending | Running | Ready
    | Interrupted | WaitingForHandoff | Closed | Failed

  datatype InterruptKind =
    | InputRequired | ApprovalRequired | ProviderRefusal | ProviderLimit | ExternalAction

  datatype ContinuationMode = ResumeMessage | NewMessage

  datatype Kind =
    | Created | SystemPromptConfigured | WorkspaceAttached
    | UserMessageSubmitted | RuntimeDispatched | ProviderStarted | ResponseStarted
    | AgentMessageChunk | AgentThoughtChunk | PlanUpdated | ToolCall | ToolCallUpdated
    | UsageUpdated | InputRequested | InputReceived | ApprovalRequested | ApprovalResolved
    | InterruptedEvent | Resumed | HandoffRequested | HandoffAccepted | HandoffCompleted
    | ResponseCompleted | ResponseCanceled | ResponseFailed
    | CloseRequested | ClosedEvent | RuntimeLost | FailedEvent

  /** The payload fields the projection or the worker looks at; everything else is Opaque. */
  datatype Payload =
    | Opaque
    | ProviderSession(providerSessionId: string)
    | Interruption(kind: InterruptKind, mode: ContinuationMode)
    | Resumption(continuation: ContinuationMode)
    | Failure(code: string)

  datatype Event = Event(
    sessionId: string,
    sourceId: string,
    sourceSequence: nat,
    kind: Kind,
    messageId: Option<string>,
    payload: Payload,
    occurredAt: nat)

  datatype Session = Session(
    id: string,
    state: State,
    activeMessageId: Option<string>,
    lastMessageId: Option<string>,
    interruptKind: Option<InterruptKind>,
    continuationMode: Option<ContinuationMode>,
    failureCode: Option<string>,
    updatedAt: nat)

  datatype Rejection =
    | WrongSession
    | InvalidTransition(from: State, to: State)
    | MissingMessageId
    | MessageMismatch
    | MalformedPayload

  // ---------------------------------------------------------------- transition table

  function AllowedTargets(from: State): set<State> {
    match from
    case Queued => {Dispatched, Closed, Failed}
    case Dispatched => {MessagePending, Closed, Failed}
    case MessagePending => {Dispatched, Running, Closed, Failed}
    case Running => {Ready, Interrupted, WaitingForHandoff, Closed, Failed}
    case Ready => {MessagePending, Closed, Failed}
    case Interrupted => {Running, MessagePending, Ready, WaitingForHandoff, Closed, Failed}
    case WaitingForHandoff => {Ready, Closed, Failed}
    case Closed => {}
    case Failed => {}
  }

  predicate CanTransition(from: State, to: State) {
    from == to || to in AllowedTargets(from)
  }

  predicate Terminal(state: State) {
    state == Closed || state == Failed
  }

  // ---------------------------------------------------------------- projection

  predicate Passive(kind: Kind) {
    match kind
    case Created | SystemPromptConfigured | WorkspaceAttached
       | AgentMessageChunk | AgentThoughtChunk | PlanUpdated | ToolCall | ToolCallUpdated
       | UsageUpdated | InputRequested | InputReceived | ApprovalRequested | ApprovalResolved
       | HandoffAccepted | CloseRequested => true
    case _ => false
  }

  /** The states in which a passive event is accepted. */
  predicate PassiveAllowed(kind: Kind, state: State)
    requires Passive(kind)
  {
    match kind
    case Created | SystemPromptConfigured | WorkspaceAttached => state == Queued
    case InputReceived | ApprovalResolved => state == Interrupted
    case HandoffAccepted => state == WaitingForHandoff
    case CloseRequested => !Terminal(state)
    case _ => state == Running
  }

  /** The event names the message that is being answered. */
  predicate AnswersActive(s: Session, e: Event) {
    Truthy(e.messageId) && e.messageId == s.activeMessageId
  }

  function Apply(s: Session, e: Event): (r: Result<Session, Rejection>)
    ensures r.Ok? ==> r.value.id == s.id == e.sessionId && r.value.updatedAt == e.occurredAt
    ensures Terminal(s.state) ==> r.Err?
  {
    if e.sessionId != s.id then Err(WrongSession)
    else if Passive(e.kind) then
      if PassiveAllowed(e.kind, s.state) then Ok(s.(updatedAt := e.occurredAt))
      else Err(InvalidTransition(s.state, s.state))
    else
      match e.kind
      case UserMessageSubmitted =>
        var continuation := s.state == Interrupted && s.continuationMode == Some(NewMessage);
        if s.state != Queued && s.state != Ready && !continuation then
          Err(InvalidTransition(s.state, MessagePending))
        else if !Truthy(e.messageId) then Err(MissingMessageId)
        else
          Ok(s.(state := if s.state == Queued then Queued else MessagePending,
                activeMessageId := e.messageId,
                interruptKind := None, continuationMode := None, updatedAt := e.occurredAt))
      case RuntimeDispatched =>
        if s.state !in {Queued, MessagePending} then Err(InvalidTransition(s.state, Dispatched))
        else Ok(s.(state := Dispatched, updatedAt := e.occurredAt))
      case ProviderStarted =>
        if s.state != Dispatched then Err(InvalidTransition(s.state, MessagePending))
        else Ok(s.(state := MessagePending, updatedAt := e.occurredAt))
      case ResponseStarted =>
        if s.state !in {Dispatched, MessagePending, Interrupted} then
          Err(InvalidTransition(s.state, Running))
        else if !AnswersActive(s, e) then Err(MessageMismatch)
        else Ok(s.(state := Running, interruptKind := None, continuationMode := None,
                   updatedAt := e.occurredAt))
      case InterruptedEvent =>
        if s.state != Running then Err(InvalidTransition(s.state, Interrupted))
        else if !e.payload.Interruption? then Err(MalformedPayload)
        else Ok(s.(state := Interrupted, interruptKind := Some(e.payload.kind),
                   continuationMode := Some(e.payload.mode), updatedAt := e.occurredAt))
      case Resumed =>
        if s.state != Interrupted then Err(InvalidTransition(s.state, Running))
        else if !e.payload.Resumption? then Err(MalformedPayload)
        else Ok(s.(state := if e.payload.continuation == ResumeMessage then Running else MessagePending,
                   interruptKind := None, continuationMode := None, updatedAt := e.occurredAt))
      case HandoffRequested =>
        if s.state !in {Running, Interrupted} then Err(InvalidTransition(s.state, WaitingForHandoff))
        else Ok(s.(state := WaitingForHandoff, updatedAt := e.occurredAt))
      case HandoffCompleted =>
        if s.state != WaitingForHandoff then Err(InvalidTransition(s.state, Ready))
        else Ok(s.(state := Ready, lastMessageId := s.activeMessageId, activeMessageId := None,
                   updatedAt := e.occurredAt))
      case ResponseCompleted | ResponseCanceled =>
        if s.state !in {Running, Interrupted, WaitingForHandoff} then
          Err(InvalidTransition(s.state, Ready))
        else if !AnswersActive(s, e) then Err(MessageMismatch)
        else Ok(s.(state := Ready, lastMessageId := e.messageId, activeMessageId := None,
                   interruptKind := None, continuationMode := None, failureCode := None,
                   updatedAt := e.occurredAt))
      case ResponseFailed | RuntimeLost | FailedEvent =>
        if Terminal(s.state) then Err(InvalidTransition(s.state, Failed))
        else Ok(s.(state := Failed, activeMessageId := None,
                   interruptKind := None, continuationMode := None,
                   failureCode := Some(if e.payload.Failure? then e.payload.code else "session_failed"),
                   updatedAt := e.occurredAt))
      case ClosedEvent =>
        if Terminal(s.state) then Err(InvalidTransition(s.state, Closed))
        else Ok(s.(state := Closed, activeMessageId := None,
                   interruptKind := None, continuationMode := None, updatedAt := e.occurredAt))
  }

  // ---------------------------------------------------------------- runs

  /** The session after a run of events, or the first rejection. */
  function Project(s: Session, events: seq<Event>): Result<Session, Rejection> {
    if events == [] then Ok(s)
    else
      match Project(s, events[..|events| - 1])
      case Ok(t) => Apply(t, events[|events| - 1])
      case Err(rejection) => Err(rejection)
  }

  lemma ProjectSnoc(s: Session, events: seq<Event>, e: Event)
    ensures Project(s, events + [e])
         == match Project(s, events) case Ok(t) => Apply(t, e) case Err(x) => Err(x)
  {
  }

  lemma {:induction false} ProjectConcat(s: Session, first: seq<Event>, second: seq<Event>)
    ensures Project(s, first + second)
         == match Project(s, first) case Ok(t) => Project(t, second) case Err(x) => Err(x)
    decreases |second|
  {
    if second == [] {
      assert first + second == first;
    } else {
      var n := |second| - 1;
      ProjectConcat(s, first, second[..n]);
      assert first + second == first + second[..n] + [second[n]];
      ProjectSnoc(s, first + second[..n], second[n]);
    }
  }

  /** A session as the server creates it. */
  predicate Fresh(s: Session) {
    s.state == Queued && s.activeMessageId == None && s.lastMessageId == None
    && s.interruptKind == None && s.continuationMode == None && s.failureCode == None
  }

  ghost predicate Reachable(s: Session) {
    exists s0, events :: Fresh(s0) && Project(s0, events) == Ok(s)
  }

  // ---------------------------------------------------------------- reachable shapes

  /**
   Which nullable fields are set in which state. A handoff taken from Interrupted keeps the
   interruption fields through WaitingForHandoff into Ready, so those two leave them free.
   */
  predicate Shape(s: Session) {
    && (s.interruptKind.Some? <==> s.continuationMode.Some?)
    && (s.failureCode.Some? <==> s.state == Failed)
    && s.activeMessageId != Some("") && s.lastMessageId != Some("")
    && (match s.state
        case Queued => s.interruptKind.None? && s.lastMessageId.None?
        case Dispatched | MessagePending =>
          s.interruptKind.None? && (s.activeMessageId.None? ==> s.lastMessageId.None?)
        case Running => s.activeMessageId.Some? && s.interruptKind.None?
        case Interrupted => s.activeMessageId.Some? && s.interruptKind.Some?
        case WaitingForHandoff => s.activeMessageId.Some?
        case Ready => s.activeMessageId.None? && s.lastMessageId.Some?
        case Closed | Failed => s.activeMessageId.None? && s.interruptKind.None?)
  }

  lemma ShapePreserved(s: Session, e: Event)
    requires Shape(s) && Apply(s, e).Ok?
    ensures Shape(Apply(s, e).value)
  {
  }

  lemma {:induction false} RunKeepsShape(s0: Session, events: seq<Event>)
    requires Fresh(s0) && Project(s0, events).Ok?
    ensures Shape(Project(s0, events).value)
    decreases |events|
  {
    if events != [] {
      var n := |events| - 1;
      RunKeepsShape(s0, events[..n]);
      ShapePreserved(Project(s0, events[..n]).value, events[n]);
    }
  }

  /** The event used to build a run towards a given shape. */
  function Step(target: Session, kind: Kind, messageId: Option<string>, payload: Payload): Event {
    Event(target.id, "", 1, kind, messageId, payload, target.updatedAt)
  }

  lemma Reach(s: Session, e: Event)
    requires Reachable(s) && Apply(s, e).Ok?
    ensures Reachable(Apply(s, e).value)
  {
    var s0, events :| Fresh(s0) && Project(s0, events) == Ok(s);
    ProjectSnoc(s0, events, e);
    assert Fresh(s0) && Project(s0, events + [e]) == Ok(Apply(s, e).value);
  }

  /** The intermediate sessions of the constructed runs. */
  function With(t: Session, state: State, active: Option<string>, last: Option<string>): Session {
    Session(t.id, state, active, last, None, None, None, t.updatedAt)
  }

  lemma ReachQueued(t: Session, active: Option<string>)
    requires active != Some("")
    ensures Reachable(With(t, Queued, active, None))
  {
    var s0 := With(t, Queued, None, None);
    assert Fresh(s0) && Project(s0, []) == Ok(s0);
    if active.Some? {
      Reach(s0, Step(t, UserMessageSubmitted, active, Opaque));
    }
  }

  lemma ReachFirstResponse(t: Session, m: Option<string>)
    requires Truthy(m)
    ensures Reachable(With(t, Running, m, None))
  {
    var dispatched := With(t, Dispatched, m, None);
    ReachQueued(t, m);
    Reach(With(t, Queued, m, None), Step(t, RuntimeDispatched, None, Opaque));
    assert Reachable(dispatched);
    Reach(dispatched, Step(t, ResponseStarted, m, Opaque));
  }

  lemma ReachReady(t: Session, last: string)
    requires last != ""
    ensures Reachable(With(t, Ready, None, Some(last)))
  {
    ReachFirstResponse(t, Some(last));
    Reach(With(t, Running, Some(last), None), Step(t, ResponseCompleted, Some(last), Opaque));
  }

  lemma ReachPending(t: Session, active: Option<string>, last: Option<string>)
    requires active != Some("") && last != Some("")
    requires active.None? ==> last.None?
    ensures Reachable(With(t, MessagePending, active, last))
    ensures Reachable(With(t, Dispatched, active, last))
  {
    if last.Some? {
      ReachReady(t, last.value);
      Reach(With(t, Ready, None, last), Step(t, UserMessageSubmitted, active, Opaque));
      Reach(With(t, MessagePending, active, last), Step(t, RuntimeDispatched, None, Opaque));
    } else {
      ReachQueued(t, active);
      Reach(With(t, Queued, active, None), Step(t, RuntimeDispatched, None, Opaque));
      Reach(With(t, Dispatched, active, None), Step(t, ProviderStarted, None, Opaque));
    }
  }

  lemma ReachRunning(t: Session, active: string, last: Option<string>)
    requires active != "" && last != Some("")
    ensures Reachable(With(t, Running, Some(active), last))
  {
    ReachPending(t, Some(active), last);
    Reach(With(t, MessagePending, Some(active), last), Step(t, ResponseStarted, Some(active), Opaque));
  }

  lemma ReachInterrupted(t: Session, active: string, last: Option<string>, kind: InterruptKind, mode: ContinuationMode)
    requires active != "" && last != Some("")
    ensures Reachable(With(t, Interrupted, Some(active), last)
                      .(interruptKind := Some(kind), continuationMode := Some(mode)))
  {
    ReachRunning(t, active, last);
    Reach(With(t, Running, Some(active), last), Step(t, InterruptedEvent, None, Interruption(kind, mode)));
  }

  lemma ReachWaiting(t: Session)
    requires Shape(t) && t.state == WaitingForHandoff
    ensures Reachable(t)
  {
    var active := t.activeMessageId.value;
    var request := Step(t, HandoffRequested, None, Opaque);
    if t.interruptKind.Some? {
      ReachInterrupted(t, active, t.lastMessageId, t.interruptKind.value, t.continuationMode.value);
      Reach(t.(state := Interrupted), request);
    } else {
      ReachRunning(t, active, t.lastMessageId);
      Reach(t.(state := Running), request);
    }
  }

  lemma ReachTerminalFrom(from: Session, t: Session)
    requires Reachable(from) && !Terminal(from.state) && from.failureCode.None?
    requires Shape(t) && Terminal(t.state)
    requires from.id == t.id && from.lastMessageId == t.lastMessageId
    ensures Reachable(t)
  {
    hide Reachable, Truthy, AnswersActive;
    if t.state == Failed {
      Reach(from, Step(t, FailedEvent, None, Failure(t.failureCode.value)));
    } else {
      Reach(from, Step(t, ClosedEvent, None, Opaque));
    }
  }

  lemma ReachTerminal(t: Session)
    requires Shape(t) && Terminal(t.state)
    ensures Reachable(t)
  {
    hide Apply;
    if t.lastMessageId.Some? {
      ReachReady(t, t.lastMessageId.value);
      ReachTerminalFrom(With(t, Ready, None, t.lastMessageId), t);
    } else {
      ReachQueued(t, None);
      ReachTerminalFrom(With(t, Queued, None, None), t);
    }
  }

  /** The shape invariant is exact: it holds of a session if and only if some run produces it. */
  lemma ReachableIffShape(s: Session)
    ensures Reachable(s) <==> Shape(s)
  {
    if Reachable(s) {
      var s0, events :| Fresh(s0) && Project(s0, events) == Ok(s);
      RunKeepsShape(s0, events);
    }
    if Shape(s) {
      match s.state {
        case Queued => ReachQueued(s, s.activeMessageId);
        case Dispatched | MessagePending => ReachPending(s, s.activeMessageId, s.lastMessageId);
        case Running => ReachRunning(s, s.activeMessageId.value, s.lastMessageId);
        case Interrupted =>
          ReachInterrupted(
            s, s.activeMessageId.value, s.lastMessageId, s.interruptKind.value, s.continuationMode.value);
        case WaitingForHandoff => ReachWaiting(s);
        case Ready =>
          if s.interruptKind.Some? {
            var waiting := s.(state := WaitingForHandoff, activeMessageId := s.lastMessageId, lastMessageId := None);
            ReachWaiting(waiting);
            Reach(waiting, Step(s, HandoffCompleted, None, Opaque));
          } else {
            ReachReady(s, s.lastMessageId.value);
          }
        case Closed | Failed => ReachTerminal(s);
      }
    }
  }

  // ---------------------------------------------------------------- the transition table

  /** The one shortcut the projection takes that the table does not list. */
  predicate Shortcut(from: State, to: State) {
    from == Dispatched && to == Running
  }

  /**
   An event is accepted in exactly the states its kind allows; an accepted one stays, follows a table
   edge or takes the shortcut, and only four kinds end a session.
   */
  lemma ApplyFollowsTable(s: Session, e: Event)
    ensures Apply(s, e).Ok? <==> e.sessionId == s.id && s.state in AcceptingStates(e.kind) && Carries(s, e)
    ensures Apply(s, e).Ok? ==>
              var to := Apply(s, e).value.state;
              && (CanTransition(s.state, to) || (Shortcut(s.state, to) && e.kind == ResponseStarted))
              && (to != s.state && Terminal(to) ==> e.kind in FAILING_KINDS + {ClosedEvent})
  {
    AcceptedIff(s, e);
  }

  /** The shortcut is the two-edge path through MessagePending that provider_started would take. */
  lemma ShortcutIsTwoEdges(s: Session, e: Event)
    requires Apply(s, e).Ok? && Shortcut(s.state, Apply(s, e).value.state)
    ensures CanTransition(Dispatched, MessagePending) && CanTransition(MessagePending, Running)
    ensures !CanTransition(Dispatched, Running)
    ensures Project(s, [Step(s, ProviderStarted, None, Opaque), e]) == Apply(s, e)
  {
    var started := Step(s, ProviderStarted, None, Opaque);
    ProjectConcat(s, [started], [e]);
    assert [started] + [e] == [started, e];
    assert [started][..0] == [] && [e][..0] == [];
  }

  /** Some reachable session in state `from` accepts some event that moves it to state `to`. */
  ghost predicate Realised(from: State, to: State) {
    exists s, e :: Reachable(s) && s.state == from && Apply(s, e).Ok? && Apply(s, e).value.state == to
  }

  /** The event that takes each table edge. */
  function EdgeKind(from: State, to: State): Kind {
    match to
    case Dispatched => RuntimeDispatched
    case MessagePending =>
      if from == Dispatched then ProviderStarted
      else if from == Ready then UserMessageSubmitted else Resumed
    case Running => ResponseStarted
    case Ready => ResponseCompleted
    case Interrupted => InterruptedEvent
    case WaitingForHandoff => HandoffRequested
    case Closed => ClosedEvent
    case _ => FailedEvent
  }

  /** A reachable session in each state, and the event that takes it over an edge. */
  function EdgeSession(from: State): Session {
    var active := if from in {Ready, Closed, Failed} then None else Some("m");
    var last := if from == Ready then Some("m") else None;
    var s := Session("s", from, active, last, None, None, None, 0);
    if from == Interrupted then s.(interruptKind := Some(ExternalAction), continuationMode := Some(NewMessage)) else s
  }

  function EdgeEvent(from: State, to: State): Event {
    var payload := if to == Interrupted then Interruption(ExternalAction, NewMessage) else Resumption(NewMessage);
    Step(EdgeSession(from), EdgeKind(from, to), Some("m"), payload)
  }

  lemma EdgeSessionShape(from: State)
    requires !Terminal(from)
    ensures Shape(EdgeSession(from))
  {
  }

  lemma ClosingEdgeIsTaken(from: State, to: State)
    requires !Terminal(from) && Terminal(to)
    ensures var r := Apply(EdgeSession(from), EdgeEvent(from, to)); r.Ok? && r.value.state == to
  {
  }

  lemma OpenEdgeIsTaken(from: State, to: State)
    requires from != to && !Terminal(to) && (CanTransition(from, to) || Shortcut(from, to))
    ensures var r := Apply(EdgeSession(from), EdgeEvent(from, to)); r.Ok? && r.value.state == to
  {
  }

  /** Moves between different states: exactly the table's edges and the one shortcut. */
  lemma RealisedIffTableEdge(from: State, to: State)
    requires from != to
    ensures Realised(from, to) <==> CanTransition(from, to) || Shortcut(from, to)
  {
    hide Apply;
    if Realised(from, to) {
      var s, e :| Reachable(s) && s.state == from && Apply(s, e).Ok? && Apply(s, e).value.state == to;
      ApplyFollowsTable(s, e);
    }
    if CanTransition(from, to) || Shortcut(from, to) {
      if Terminal(to) {
        ClosingEdgeIsTaken(from, to);
      } else {
        OpenEdgeIsTaken(from, to);
      }
      EdgeSessionShape(from);
      ReachableIffShape(EdgeSession(from));
    }
  }

  /** No run continues after closed or failed. */
  lemma {:induction false} NothingAfterTerminal(s: Session, events: seq<Event>)
    requires Terminal(s.state) && events != []
    ensures Project(s, events).Err?
    decreases |events|
  {
    var n := |events| - 1;
    if n > 0 {
      NothingAfterTerminal(s, events[..n]);
    }
  }

  // ---------------------------------------------------------------- what is accepted where

  /** The states that accept each kind of event, as a table. */
  function AcceptingStates(kind: Kind): set<State> {
    match kind
    case Created | SystemPromptConfigured | WorkspaceAttached => {Queued}
    case AgentMessageChunk | AgentThoughtChunk | PlanUpdated | ToolCall | ToolCallUpdated
       | UsageUpdated | InputRequested | ApprovalRequested => {Running}
    case InputReceived | ApprovalResolved => {Interrupted}
    case UserMessageSubmitted => {Queued, Ready, Interrupted}
    case RuntimeDispatched => {Queued, MessagePending}
    case ProviderStarted => {Dispatched}
    case ResponseStarted => {Dispatched, MessagePending, Interrupted}
    case InterruptedEvent => {Running}
    case Resumed => {Interrupted}
    case HandoffRequested => {Running, Interrupted}
    case HandoffAccepted | HandoffCompleted => {WaitingForHandoff}
    case ResponseCompleted | ResponseCanceled => {Running, Interrupted, WaitingForHandoff}
    case CloseRequested | ClosedEvent | ResponseFailed | RuntimeLost | FailedEvent =>
      {Queued, Dispatched, MessagePending, Running, Ready, Interrupted, WaitingForHandoff}
  }

  /** What an event must carry, beyond arriving in the right state. */
  predicate Carries(s: Session, e: Event) {
    match e.kind
    case UserMessageSubmitted =>
      && e.messageId != None && e.messageId != Some("")
      && (s.state == Interrupted ==> s.continuationMode == Some(NewMessage))
    case ResponseStarted | ResponseCompleted | ResponseCanceled =>
      e.messageId != None && e.messageId != Some("") && s.activeMessageId == e.messageId
    case InterruptedEvent => e.payload.Interruption?
    case Resumed => e.payload.Resumption?
    case _ => true
  }

  /** An event is accepted exactly by its own session, in the table's states, with what it must carry. */
  lemma AcceptedIff(s: Session, e: Event)
    ensures Apply(s, e).Ok? <==> e.sessionId == s.id && s.state in AcceptingStates(e.kind) && Carries(s, e)
    ensures Apply(s, e) == Err(WrongSession) <==> e.sessionId != s.id
    ensures e.sessionId == s.id && s.state !in AcceptingStates(e.kind) ==>
              Apply(s, e).error.InvalidTransition? && Apply(s, e).error.from == s.state
  {
  }

  /** The kinds that leave everything but the time as it was. */
  const PASSIVE_KINDS: set<Kind> := {
    Created, SystemPromptConfigured, WorkspaceAttached, AgentMessageChunk, AgentThoughtChunk, PlanUpdated, ToolCall,
    ToolCallUpdated, UsageUpdated, InputRequested, InputReceived, ApprovalRequested, ApprovalResolved,
    HandoffAccepted, CloseRequested}

  const FAILING_KINDS: set<Kind> := {ResponseFailed, RuntimeLost, FailedEvent}

  /** Where an accepted event leads. */
  lemma AcceptedState(s: Session, e: Event)
    requires Apply(s, e).Ok?
    ensures var to := Apply(s, e).value.state;
            && (e.kind in PASSIVE_KINDS ==> to == s.state)
            && (to == Queued <==> s.state == Queued && (e.kind in PASSIVE_KINDS || e.kind == UserMessageSubmitted))
            && (e.kind == UserMessageSubmitted && s.state != Queued ==> to == MessagePending)
            && (e.kind == RuntimeDispatched ==> to == Dispatched)
            && (e.kind == ProviderStarted ==> to == MessagePending)
            && (e.kind == ResponseStarted ==> to == Running)
            && (e.kind == Resumed ==> to == if e.payload.continuation == ResumeMessage then Running else MessagePending)
            && (e.kind == InterruptedEvent ==> to == Interrupted)
            && (e.kind == HandoffRequested ==> to == WaitingForHandoff)
            && (e.kind in {HandoffCompleted, ResponseCompleted, ResponseCanceled} ==> to == Ready)
            && (e.kind in FAILING_KINDS ==> to == Failed)
            && (e.kind == ClosedEvent ==> to == Closed)
  {
  }

  /** What an accepted event does to the interruption and failure fields. */
  lemma AcceptedFields(s: Session, e: Event)
    requires Apply(s, e).Ok?
    ensures var t := Apply(s, e).value;
            && (e.kind in PASSIVE_KINDS ==> t == s.(updatedAt := e.occurredAt))
            && (if e.kind == InterruptedEvent then
                  t.interruptKind == Some(e.payload.kind) && t.continuationMode == Some(e.payload.mode)
                else if e.kind in PASSIVE_KINDS
                        || e.kind in {RuntimeDispatched, ProviderStarted, HandoffRequested, HandoffCompleted} then
                  t.interruptKind == s.interruptKind && t.continuationMode == s.continuationMode
                else t.interruptKind == None && t.continuationMode == None)
            && (if e.kind in FAILING_KINDS then
                  t.failureCode == Some(if e.payload.Failure? then e.payload.code else "session_failed")
                else if e.kind in {ResponseCompleted, ResponseCanceled} then t.failureCode == None
                else t.failureCode == s.failureCode)
  {
  }

  /** Every reachable session that has not ended can be closed, by the two events the server appends. */
  lemma CanAlwaysClose(s: Session, requested: Event, closed: Event)
    requires Reachable(s) && !Terminal(s.state)
    requires requested.sessionId == closed.sessionId == s.id
    requires requested.kind == CloseRequested && closed.kind == ClosedEvent
    ensures Project(s, [requested, closed]).Ok? && Project(s, [requested, closed]).value.state == Closed
  {
    hide Reachable;
    AcceptedIff(s, requested);
    AcceptedState(s, requested);
    AcceptedFields(s, requested);
    ProjectConcat(s, [requested], [closed]);
    assert [requested] + [closed] == [requested, closed];
    assert [requested][..0] == [] && [closed][..0] == [];
  }

  /** The log a session is launched with is accepted, and leaves the first message active. */
  lemma LaunchLogAccepted(s: Session, log: seq<Event>, message: string)
    requires Fresh(s) && message != "" && |log| == 4 && forall i :: 0 <= i < 4 ==> log[i].sessionId == s.id
    requires log[0].kind == Created && log[1].kind == SystemPromptConfigured && log[2].kind == WorkspaceAttached
    requires log[3].kind == UserMessageSubmitted && log[3].messageId == Some(message)
    ensures Project(s, log).Ok?
    ensures var t := Project(s, log).value;
            t.state == Queued && t.activeMessageId == Some(message) && t.lastMessageId == None
  {
    assert log[..3][..2][..1][..0] == [];
    assert log[..3][..2] == log[..2] && log[..2][..1] == log[..1] && log[..1][..0] == [];
    assert Project(s, log[..1]) == Apply(s, log[0]);
    assert Project(s, log[..2]) == Apply(Project(s, log[..1]).value, log[1]);
    assert Project(s, log[..3]) == Apply(Project(s, log[..2]).value, log[2]);
  }

  // ---------------------------------------------------------------- between two responses

  /** A user message and, after it, a response_started. */
  ghost predicate Answered(events: seq<Event>) {
    exists i, j :: 0 <= i < j < |events| && events[i].kind == UserMessageSubmitted && events[j].kind == ResponseStarted
  }

  ghost predicate Asked(events: seq<Event>) {
    exists i :: 0 <= i < |events| && events[i].kind == UserMessageSubmitted
  }

  lemma AnsweredGrows(events: seq<Event>, e: Event)
    ensures Answered(events) ==> Answered(events + [e])
    ensures Asked(events) ==> Asked(events + [e])
    ensures Asked(events) && e.kind == ResponseStarted ==> Answered(events + [e])
    ensures e.kind == UserMessageSubmitted ==> Asked(events + [e])
  {
    var all := events + [e];
    if Answered(events) {
      var i, j :| 0 <= i < j < |events| && events[i].kind == UserMessageSubmitted && events[j].kind == ResponseStarted;
      assert all[i] == events[i] && all[j] == events[j];
    }
    if Asked(events) {
      var i :| 0 <= i < |events| && events[i].kind == UserMessageSubmitted;
      assert all[i] == events[i];
      if e.kind == ResponseStarted {
        assert all[i].kind == UserMessageSubmitted && all[|events|].kind == ResponseStarted;
      }
    }
    if e.kind == UserMessageSubmitted {
      assert all[|events|] == e;
    }
  }

  /** Ready is left by a user message, and what follows it waits for a response_started. */
  lemma LeavingReady(s: Session, e: Event)
    requires Apply(s, e).Ok?
    ensures var to := Apply(s, e).value.state;
            && (s.state == Ready ==>
                  to == Ready || Terminal(to) || (to == MessagePending && e.kind == UserMessageSubmitted))
            && (s.state in {MessagePending, Dispatched} ==>
                  to in {MessagePending, Dispatched} || Terminal(to) || e.kind == ResponseStarted)
  {
  }

  /** How far a run that started in Ready has come. */
  lemma {:induction false} SinceReady(s: Session, events: seq<Event>)
    requires s.state == Ready && Project(s, events).Ok?
    ensures var to := Project(s, events).value.state;
            Answered(events) || Terminal(to) || to == Ready
            || (Asked(events) && to in {MessagePending, Dispatched})
    decreases |events|
  {
    if events != [] {
      var n := |events| - 1;
      var t, e := Project(s, events[..n]).value, events[n];
      assert events[..n] + [e] == events;
      assert Project(s, events) == Apply(t, e);
      hide *;
      SinceReady(s, events[..n]);
      AnsweredGrows(events[..n], e);
      LeavingReady(t, e);
    }
  }

  /** Between two entries to Ready a run contains a user message and then a response_started. */
  lemma ReadyToReady(s: Session, events: seq<Event>, last: Event)
    requires s.state == Ready && Project(s, events + [last]).Ok?
    requires Project(s, events).value.state != Ready
    requires Project(s, events + [last]).value.state == Ready
    ensures Answered(events)
  {
    ProjectSnoc(s, events, last);
    SinceReady(s, events);
    LeavingReady(Project(s, events).value, last);
  }

  // ---------------------------------------------------------------- message conservation

  /** What became of every message submitted in a run. */
  datatype Ledger = Ledger(
    submitted: multiset<string>,
    finished: multiset<string>,
    superseded: multiset<string>,
    dropped: multiset<string>)

  function Ids(message: Option<string>): multiset<string> {
    if message.Some? then multiset{message.value} else multiset{}
  }

  /** Adds one accepted event; each column looks only at the sessions before and after it. */
  function Post(ledger: Ledger, before: Session, e: Event, after: Session): Ledger {
    var asked := e.kind == UserMessageSubmitted;
    Ledger(
      ledger.submitted + (if asked then Ids(e.messageId) else multiset{}),
      ledger.finished + (if before.state != Ready && after.state == Ready then Ids(after.lastMessageId)
        else multiset{}),
      ledger.superseded + (if asked then Ids(before.activeMessageId) else multiset{}),
      ledger.dropped + (if !Terminal(before.state) && Terminal(after.state) then Ids(before.activeMessageId)
        else multiset{}))
  }

  function Account(s0: Session, events: seq<Event>): Ledger
    requires Project(s0, events).Ok?
  {
    if events == [] then Ledger(multiset{}, multiset{}, multiset{}, multiset{})
    else
      var n := |events| - 1;
      Post(Account(s0, events[..n]), Project(s0, events[..n]).value, events[n], Project(s0, events).value)
  }

  /** What one accepted event does to the two message fields. */
  lemma ApplyMovesMessages(s: Session, e: Event)
    requires Shape(s) && Apply(s, e).Ok?
    ensures var t := Apply(s, e).value;
            if e.kind == UserMessageSubmitted then
              && t.state in {Queued, MessagePending} && t.activeMessageId == e.messageId
              && t.lastMessageId == s.lastMessageId
            else if s.state != Ready && t.state == Ready then
              && s.activeMessageId.Some? && t.lastMessageId == s.activeMessageId && t.activeMessageId.None?
            else if Terminal(t.state) then
              t.activeMessageId.None? && t.lastMessageId == s.lastMessageId
            else
              t.activeMessageId == s.activeMessageId && t.lastMessageId == s.lastMessageId
  {
  }

  lemma PostBalances(ledger: Ledger, before: Session, e: Event)
    requires Shape(before) && Apply(before, e).Ok?
    requires ledger.submitted == ledger.finished + ledger.superseded + ledger.dropped + Ids(before.activeMessageId)
    ensures var after := Apply(before, e).value;
            var l := Post(ledger, before, e, after);
            l.submitted == l.finished + l.superseded + l.dropped + Ids(after.activeMessageId)
  {
    var after := Apply(before, e).value;
    ApplyMovesMessages(before, e);
    BalanceOf(ledger, before, e, after);
  }

  /** The multiset part of one booking, away from the projection. */
  lemma BalanceOf(ledger: Ledger, before: Session, e: Event, after: Session)
    requires !Terminal(before.state)
    requires ledger.submitted == ledger.finished + ledger.superseded + ledger.dropped + Ids(before.activeMessageId)
    requires e.kind == UserMessageSubmitted ==>
               after.activeMessageId == e.messageId && after.state in {Queued, MessagePending}
    requires e.kind != UserMessageSubmitted && before.state != Ready && after.state == Ready ==>
               after.lastMessageId == before.activeMessageId && after.activeMessageId.None?
    requires e.kind != UserMessageSubmitted && Terminal(after.state) ==> after.activeMessageId.None?
    requires e.kind != UserMessageSubmitted && !Terminal(after.state)
             && (before.state == Ready || after.state != Ready) ==>
               after.activeMessageId == before.activeMessageId
    ensures var l := Post(ledger, before, e, after);
            l.submitted == l.finished + l.superseded + l.dropped + Ids(after.activeMessageId)
  {
    hide Ids;
    var l := Post(ledger, before, e, after);
    assert Ids(None) == multiset{} by { NoIds(); }
    if e.kind == UserMessageSubmitted {
      assert l.superseded == ledger.superseded + Ids(before.activeMessageId);
      assert l.finished == ledger.finished && l.dropped == ledger.dropped;
    } else {
      assert l.submitted == ledger.submitted && l.superseded == ledger.superseded;
    }
  }

  lemma NoIds()
    ensures Ids(None) == multiset{}
  {
  }

  /**
   Conservation, message by message: every submitted message was finished into Ready, superseded
   by a later submission, dropped by failure or close, or is the active one.
   */
  lemma {:induction false} MessagesAreConserved(s0: Session, events: seq<Event>)
    requires Fresh(s0) && Project(s0, events).Ok?
    ensures var l := Account(s0, events);
            l.submitted == l.finished + l.superseded + l.dropped + Ids(Project(s0, events).value.activeMessageId)
    decreases |events|
  {
    if events != [] {
      var n := |events| - 1;
      hide Apply;
      MessagesAreConserved(s0, events[..n]);
      RunKeepsShape(s0, events[..n]);
      PostBalances(Account(s0, events[..n]), Project(s0, events[..n]).value, events[n]);
    }
  }

  /** The number of times a run enters Ready. */
  function ReadyEntries(s0: Session, events: seq<Event>): nat
    requires Project(s0, events).Ok?
  {
    if events == [] then 0
    else
      var n := |events| - 1;
      var enters := Project(s0, events[..n]).value.state != Ready && Project(s0, events).value.state == Ready;
      ReadyEntries(s0, events[..n]) + if enters then 1 else 0
  }

  lemma {:induction false} EachReadyEntryFinishesOne(s0: Session, events: seq<Event>)
    requires Fresh(s0) && Project(s0, events).Ok?
    ensures ReadyEntries(s0, events) == |Account(s0, events).finished|
    ensures Ids(Project(s0, events).value.lastMessageId) <= Account(s0, events).finished
    decreases |events|
  {
    if events != [] {
      var n := |events| - 1;
      hide Apply;
      EachReadyEntryFinishesOne(s0, events[..n]);
      RunKeepsShape(s0, events[..n]);
      ApplyMovesMessages(Project(s0, events[..n]).value, events[n]);
      var finished, before := Account(s0, events[..n]).finished, Project(s0, events[..n]).value;
      if before.state != Ready && Project(s0, events).value.state == Ready {
        assert |finished + multiset{before.activeMessageId.value}| == |finished| + 1;
      }
    }
  }

  /** The same balance as numbers, and both recorded ids were submitted in the run. */
  lemma MessageCounts(s0: Session, events: seq<Event>)
    requires Fresh(s0) && Project(s0, events).Ok?
    ensures var l := Account(s0, events);
            var s := Project(s0, events).value;
            && |l.submitted| == ReadyEntries(s0, events) + |l.superseded| + |l.dropped|
                                + (if s.activeMessageId.Some? then 1 else 0)
            && Ids(s.activeMessageId) <= l.submitted
            && Ids(s.lastMessageId) <= l.submitted
  {
    MessagesAreConserved(s0, events);
    EachReadyEntryFinishesOne(s0, events);
    var l := Account(s0, events);
    var active := Ids(Project(s0, events).value.activeMessageId);
    assert |l.submitted| == |l.finished + l.superseded + l.dropped| + |active|;
    assert |l.finished + l.superseded + l.dropped| == |l.finished| + |l.superseded| + |l.dropped|;
  }
}
