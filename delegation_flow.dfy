/** Delegation of a session to its root thread: the caller hands the work
  * over, and every gated method of that session stays blocked until the
  * root thread acknowledges the handoff. */
module DelegationFlow {
  import opened Text
  import opened StoreSchema
  import opened SessionStore

  /** `valueOrEmpty`. */
  function ValueOrEmpty(v: Option<string>): (r: string)
    ensures v.Some? ==> r == v.value
    ensures v.None? ==> r == ""
  {
    if v.Some? then v.value else ""
  }

  /** `int64OrZero`. */
  function IdOrZero(v: Option<int>): (r: int)
    ensures v.Some? ==> r == v.value
    ensures v.None? ==> r == 0
  {
    if v.Some? then v.value else 0
  }

  function Blocked(sessionId: int, rootThread: Option<int>, rpcMethod: string): string {
    "session " + IntToString(sessionId) + " is delegated to root thread " + IntToString(IdOrZero(rootThread))
    + "; " + rpcMethod + " is blocked until thread.root.handoff_ack"
  }

  /** A session that was delegated and whose handoff is not acknowledged. */
  predicate AwaitsAck(s: Session) {
    Canon(ValueOrEmpty(s.delegationState)) == "delegated" && IsBlank(ValueOrEmpty(s.delegationAckedAt))
  }

  /** `requireDelegationAck`: `None` lets the call through, `Some(e)` refuses
    * it with error `e`. No session (id <= 0) always passes; an unknown
    * session fails the lookup; a known one is blocked exactly while it is
    * delegated and unacknowledged, with a message naming the method. */
  function RequireDelegationAck(sessions: Table<Session>, sessionId: int, rpcMethod: string): (r: Option<string>)
    ensures sessionId <= 0 ==> r.None?
    ensures sessionId > 0 && sessionId !in sessions.rows ==> r == Some(NoRows)
    ensures sessionId > 0 && sessionId in sessions.rows ==>
      (r.None? <==> !AwaitsAck(sessions.rows[sessionId]))
    ensures sessionId > 0 && sessionId in sessions.rows && r.Some? ==>
      r.value == Blocked(sessionId, sessions.rows[sessionId].delegationRootThread, rpcMethod)
  {
    if sessionId <= 0 then None
    else if sessionId !in sessions.rows then Some(NoRows)
    else
      var session := sessions.rows[sessionId];
      var state := Canon(ValueOrEmpty(session.delegationState));
      if state != "delegated" then None
      else
        TrimSpaceBlank(ValueOrEmpty(session.delegationAckedAt));
        if TrimSpace(ValueOrEmpty(session.delegationAckedAt)) != "" then None
        else Some(Blocked(sessionId, session.delegationRootThread, rpcMethod))
  }

  // ---------------------------------------------------------- delegation

  /** The root thread's title: the title, else the user request (both
    * trimmed), else "root orchestration". */
  function DelegationTitle(title: string, userRequest: string): (r: string)
    ensures !IsBlank(r)
    ensures !IsBlank(title) ==> r == TrimSpace(title)
    ensures IsBlank(title) && !IsBlank(userRequest) ==> r == TrimSpace(userRequest)
    ensures IsBlank(title) && IsBlank(userRequest) ==> r == "root orchestration"
  {
    TrimSpaceBlank(title);
    TrimSpaceBlank(userRequest);
    TrimSpaceIdempotent(title);
    TrimSpaceIdempotent(userRequest);
    assert !IsBlank("root orchestration") by {
      assert !IsSpace("root orchestration"[0]);
    }
    var t := TrimSpace(title);
    if t != "" then t
    else
      var u := TrimSpace(userRequest);
      if u != "" then u else "root orchestration"
  }

  /** The root thread's objective: the objective, else the user request,
    * else the title (all trimmed). */
  function DelegationObjective(objective: string, userRequest: string, title: string): (r: string)
    ensures !IsBlank(objective) ==> r == TrimSpace(objective)
    ensures IsBlank(objective) && !IsBlank(userRequest) ==> r == TrimSpace(userRequest)
    ensures IsBlank(objective) && IsBlank(userRequest) ==> r == TrimSpace(title)
  {
    TrimSpaceBlank(objective);
    TrimSpaceBlank(userRequest);
    var o := TrimSpace(objective);
    if o != "" then o
    else
      var u := TrimSpace(userRequest);
      if u != "" then u else TrimSpace(title)
  }

  /** With the title chosen by `DelegationTitle`, the objective is never
    * blank either. */
  lemma DelegationObjectiveNotBlank(input: DelegateInput)
    ensures !IsBlank(DelegationObjective(input.objective, input.userRequest,
                                         DelegationTitle(input.title, input.userRequest)))
  {
    var t := DelegationTitle(input.title, input.userRequest);
    TrimSpaceBlank(input.objective);
    TrimSpaceBlank(input.userRequest);
    TrimSpaceBlank(t);
    TrimSpaceIdempotent(input.objective);
    TrimSpaceIdempotent(input.userRequest);
    TrimSpaceIdempotent(t);
    TrimSpaceBlank(TrimSpace(input.objective));
    TrimSpaceBlank(TrimSpace(input.userRequest));
    TrimSpaceBlank(TrimSpace(t));
  }

  datatype DelegateInput = DelegateInput(sessionId: int, title: string, objective: string, userRequest: string)

  /** The session columns a delegation writes: delegated to the root thread,
    * issued now, acknowledgement cleared to "". */
  function DelegatedUpdate(rootThread: int, now: int): (u: SessionUpdateArgs)
    ensures u.delegationState == Some("delegated") && u.delegationAckedAt == Some("")
    ensures u.delegationRootThread == Some(rootThread) && u.delegationIssuedAt == Some(Stamp(now))
    ensures u.runtimeState == Some("delegated_to_root")
    ensures u.status.None? && u.intent.None? && u.rootThread.None? && u.tmuxSessionName.None?
  {
    NoSessionChanges().(delegationState := Some("delegated"), delegationRootThread := Some(rootThread),
                        delegationIssuedAt := Some(Stamp(now)), delegationAckedAt := Some(""),
                        runtimeState := Some("delegated_to_root"))
  }

  /** `delegateOrchestration`. Ensuring the root thread (its tmux work and
    * its own store writes) happens outside this model: `ensureRoot` is its
    * outcome, the root thread's id or its error, for the title and objective
    * computed here. */
  method DelegateOrchestration(st: Store, input: DelegateInput, ensureRoot: (string, string) -> Result<int>, now: int)
    returns (r: Result<Session>)
    requires st.Valid()
    modifies st`sessions, st`dbVersion, st`mirrorUpdatedAt
    ensures st.Valid()
    ensures input.sessionId <= 0 ==> r == Err("session_id is required")
    ensures input.sessionId > 0 && input.sessionId !in old(st.sessions.rows) ==> r == Err(NoRows)
    ensures r.Err? ==> st.sessions == old(st.sessions) && st.NotBumped()
    ensures var root := ensureRoot(DelegationTitle(input.title, input.userRequest),
                                   DelegationObjective(input.objective, input.userRequest,
                                                       DelegationTitle(input.title, input.userRequest)));
      r.Ok? <==> input.sessionId > 0 && input.sessionId in old(st.sessions.rows) && root.Ok?
    ensures r.Ok? ==>
      var root := ensureRoot(DelegationTitle(input.title, input.userRequest),
                             DelegationObjective(input.objective, input.userRequest,
                                                 DelegationTitle(input.title, input.userRequest)));
      r.value == ApplySessionUpdate(old(st.sessions.rows[input.sessionId]), DelegatedUpdate(root.value, now), now)
      && st.sessions == old(st.sessions).Put(input.sessionId, r.value) && st.Bumped(now)
  {
    if input.sessionId <= 0 {
      return Err("session_id is required");
    }
    if input.sessionId !in st.sessions.rows {
      return Err(NoRows);
    }
    var title := DelegationTitle(input.title, input.userRequest);
    var objective := DelegationObjective(input.objective, input.userRequest, title);
    var root := ensureRoot(title, objective);
    if root.Err? {
      return Err(root.msg);
    }
    r := UpdateSession(st, input.sessionId, DelegatedUpdate(root.value, now), now);
  }

  /** After a delegation every gated method of the session is blocked, and
    * the refusal names the root thread and the method. */
  lemma DelegationBlocksGatedMethods(sessions: Table<Session>, sessionId: int, rootThread: int, now: int, rpcMethod: string)
    requires sessionId > 0 && sessionId in sessions.rows
    ensures var after := sessions.Put(sessionId,
              ApplySessionUpdate(sessions.rows[sessionId], DelegatedUpdate(rootThread, now), now));
      RequireDelegationAck(after, sessionId, rpcMethod) == Some(Blocked(sessionId, Some(rootThread), rpcMethod))
  {
    var s := ApplySessionUpdate(sessions.rows[sessionId], DelegatedUpdate(rootThread, now), now);
    assert Canon("delegated") == "delegated" by {
      TrimSpaceUnchanged("delegated");
    }
    assert IsBlank(ValueOrEmpty(s.delegationAckedAt));
  }

  // ------------------------------------------------------ handoff ack

  /** The session columns an acknowledgement writes. */
  function AckUpdate(ackState: string, thread: int, now: int): (u: SessionUpdateArgs)
    ensures u.delegationState == Some(ackState) && u.delegationRootThread == Some(thread)
    ensures u.delegationAckedAt == Some(Stamp(now)) && u.runtimeState == Some("root_active")
    ensures u.delegationIssuedAt.None? && u.status.None? && u.intent.None?
  {
    NoSessionChanges().(delegationState := Some(ackState), delegationRootThread := Some(thread),
                        delegationAckedAt := Some(Stamp(now)), runtimeState := Some("root_active"))
  }

  /** `ackRootHandoff`'s checks, in order, against the current tables. */
  function ValidateAck(sessions: Table<Session>, threads: Table<Thread>, sessionId: int, threadId: int): (r: Option<string>)
    ensures r.None? <==>
      sessionId > 0 && threadId > 0 && sessionId in sessions.rows && threadId in threads.rows
      && threads.rows[threadId].sessionId == sessionId
      && (sessions.rows[sessionId].rootThread.None? || sessions.rows[sessionId].rootThread == Some(threadId))
    ensures sessionId <= 0 ==> r == Some("session_id is required")
    ensures sessionId > 0 && threadId <= 0 ==> r == Some("thread_id is required")
    ensures sessionId > 0 && threadId > 0 && (sessionId !in sessions.rows || threadId !in threads.rows) ==>
      r == Some(NoRows)
    ensures (sessionId > 0 && threadId > 0 && sessionId in sessions.rows && threadId in threads.rows
             && threads.rows[threadId].sessionId != sessionId) ==>
      r == Some("thread belongs to another session: " + IntToString(threads.rows[threadId].sessionId))
  {
    if sessionId <= 0 then Some("session_id is required")
    else if threadId <= 0 then Some("thread_id is required")
    else if sessionId !in sessions.rows then Some(NoRows)
    else if threadId !in threads.rows then Some(NoRows)
    else if threads.rows[threadId].sessionId != sessionId then
      Some("thread belongs to another session: " + IntToString(threads.rows[threadId].sessionId))
    else if sessions.rows[sessionId].rootThread.Some? && sessions.rows[sessionId].rootThread.value != threadId then
      Some("thread_id=" + IntToString(threadId) + " is not the session root thread")
    else None
  }

  /** `ackRootHandoff`: after the checks, records the acknowledgement
    * (state defaulting to "acknowledged") and marks the root active. */
  method AckRootHandoff(st: Store, sessionId: int, threadId: int, state: string, now: int) returns (r: Result<Session>)
    requires st.Valid()
    modifies st`sessions, st`dbVersion, st`mirrorUpdatedAt
    ensures st.Valid()
    ensures ValidateAck(old(st.sessions), st.threads, sessionId, threadId).Some? ==>
      r == Err(ValidateAck(old(st.sessions), st.threads, sessionId, threadId).value)
      && st.sessions == old(st.sessions) && st.NotBumped()
    ensures r.Ok? <==> ValidateAck(old(st.sessions), st.threads, sessionId, threadId).None?
    ensures r.Ok? ==>
      r.value == ApplySessionUpdate(old(st.sessions.rows[sessionId]),
                                    AckUpdate(TrimOrDefault(state, "acknowledged"), threadId, now), now)
      && st.sessions == old(st.sessions).Put(sessionId, r.value) && st.Bumped(now)
  {
    var invalid := ValidateAck(st.sessions, st.threads, sessionId, threadId);
    if invalid.Some? {
      return Err(invalid.value);
    }
    var ackState := TrimOrDefault(state, "acknowledged");
    r := UpdateSession(st, sessionId, AckUpdate(ackState, threadId, now), now);
  }

  /** An acknowledged handoff opens the gate for every method, whatever
    * state the root thread reported. */
  lemma AckOpensGate(sessions: Table<Session>, sessionId: int, ackState: string, thread: int, now: int, rpcMethod: string)
    requires sessionId in sessions.rows
    ensures var after := sessions.Put(sessionId,
              ApplySessionUpdate(sessions.rows[sessionId], AckUpdate(ackState, thread, now), now));
      RequireDelegationAck(after, sessionId, rpcMethod).None?
  {
    var s := ApplySessionUpdate(sessions.rows[sessionId], AckUpdate(ackState, thread, now), now);
    assert ValueOrEmpty(s.delegationAckedAt) == Stamp(now);
  }
}
