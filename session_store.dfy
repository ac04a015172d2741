/** Sessions, their current refs, the main-merge queue and the singleton
  * main-merge lock: the session/worktree half of the state store. */
module SessionStore {
  import opened Text
  import opened StoreSchema
  import CoreStore

  const DefaultMergeLockTtlSeconds := 600
  const DefaultHeartbeatTimeoutSeconds := 60

  // ------------------------------------------------------------- sessions

  datatype SessionOpenArgs = SessionOpenArgs(
    agentRole: string, owner: string, repoPath: string, terminalFingerprint: string, intent: string)

  /** The row `OpenSession` inserts: role, owner and intent trimmed with
    * defaults "codex", "unknown" and "auto"; a fresh session is "opened" and
    * "caller_active", with no root thread, tmux session or runtime state. */
  function OpenedSession(args: SessionOpenArgs, now: int): (s: Session)
    ensures (IsBlank(args.agentRole) ==> s.agentRole == "codex")
      && (!IsBlank(args.agentRole) ==> s.agentRole == TrimSpace(args.agentRole))
    ensures (IsBlank(args.owner) ==> s.owner == "unknown") && (!IsBlank(args.owner) ==> s.owner == TrimSpace(args.owner))
    ensures (IsBlank(args.intent) ==> s.intent == "auto") && (!IsBlank(args.intent) ==> s.intent == TrimSpace(args.intent))
    ensures s.repoPath == TrimSpace(args.repoPath)
    ensures s.status == "opened" && s.delegationState == Some("caller_active")
    ensures s.rootThread.None? && s.tmuxSessionName.None? && s.runtimeState.None?
    ensures s.startedAt == now && s.lastSeenAt == now
  {
    Session(TrimOrDefault(args.agentRole, "codex"), TrimOrDefault(args.owner, "unknown"),
            TrimSpace(args.repoPath), NullableText(args.terminalFingerprint),
            TrimOrDefault(args.intent, "auto"), None, None, None, None, None,
            Some("caller_active"), None, None, None, now, now, "opened")
  }

  /** `OpenSession`: a blank repo path is refused; otherwise the session is
    * inserted under the next id. */
  method OpenSession(st: Store, args: SessionOpenArgs, now: int) returns (r: Result<int>)
    requires st.Valid()
    modifies st`sessions, st`dbVersion, st`mirrorUpdatedAt
    ensures st.Valid() && st.worktrees == old(st.worktrees)
    ensures r.Ok? <==> !IsBlank(args.repoPath)
    ensures r.Err? ==> r.msg == "repo_path is required" && st.sessions == old(st.sessions) && st.NotBumped()
    ensures r.Ok? ==>
      r.value == old(st.sessions.lastId) + 1
      && st.sessions == old(st.sessions).Insert(OpenedSession(args, now)) && st.Bumped(now)
  {
    TrimSpaceBlank(args.repoPath);
    if TrimSpace(args.repoPath) == "" {
      return Err("repo_path is required");
    }
    var id := st.InsertSession(OpenedSession(args, now));
    st.BumpVersion(now);
    r := Ok(id);
  }

  /** The status a heartbeat leaves behind: "opened" becomes "active_new",
    * every other status is kept. */
  function HeartbeatStatus(status: string): (r: string)
    ensures r != "opened"
    ensures status != "opened" ==> r == status
  {
    if status == "opened" then "active_new" else status
  }

  /** A heartbeat is a fixpoint after the first: beating twice leaves the
    * status the first beat left. */
  lemma HeartbeatStatusIdempotent(status: string)
    ensures HeartbeatStatus(HeartbeatStatus(status)) == HeartbeatStatus(status)
  {
  }

  function SessionNotFound(id: int): string {
    "session not found: " + IntToString(id)
  }

  /** `HeartbeatSession`: refreshes `last_seen_at` and promotes an opened
    * session; an unknown id fails and changes nothing. */
  method HeartbeatSession(st: Store, sessionId: int, now: int) returns (r: Result<Session>)
    requires st.Valid()
    modifies st`sessions, st`dbVersion, st`mirrorUpdatedAt
    ensures st.Valid()
    ensures r.Ok? <==> sessionId in old(st.sessions.rows)
    ensures r.Err? ==> r.msg == SessionNotFound(sessionId) && st.sessions == old(st.sessions) && st.NotBumped()
    ensures r.Ok? ==>
      var before := old(st.sessions.rows[sessionId]);
      r.value == before.(lastSeenAt := now, status := HeartbeatStatus(before.status))
      && st.sessions == old(st.sessions).Put(sessionId, r.value) && st.Bumped(now)
  {
    if sessionId !in st.sessions.rows {
      return Err(SessionNotFound(sessionId));
    }
    var s := st.sessions.rows[sessionId];
    var updated := s.(lastSeenAt := now, status := HeartbeatStatus(s.status));
    st.PutSession(sessionId, updated);
    st.BumpVersion(now);
    r := Ok(updated);
  }

  /** The optional columns of `UpdateSession`; `None` leaves a column alone. */
  datatype SessionUpdateArgs = SessionUpdateArgs(
    status: Option<string>, mainWorktree: Option<int>, sessionRoot: Option<int>,
    rootThread: Option<int>, tmuxSessionName: Option<string>, runtimeState: Option<string>,
    intent: Option<string>, delegationState: Option<string>, delegationRootThread: Option<int>,
    delegationIssuedAt: Option<string>, delegationAckedAt: Option<string>)

  function NoSessionChanges(): SessionUpdateArgs {
    SessionUpdateArgs(None, None, None, None, None, None, None, None, None, None, None)
  }

  /** Takes `v` instead of `current` when an argument is present. */
  function SetIfGiven<T>(v: Option<T>, current: T): (r: T)
    ensures v.Some? ==> r == v.value
    ensures v.None? ==> r == current
  {
    if v.Some? then v.value else current
  }

  /** Sets a nullable column when an argument is present. */
  function SetNullableIfGiven<T>(v: Option<T>, current: Option<T>): (r: Option<T>)
    ensures v.Some? ==> r == v
    ensures v.None? ==> r == current
  {
    if v.Some? then v else current
  }

  /** The row after `UpdateSession`: each given column takes its argument,
    * `last_seen_at` is always refreshed, and nothing else changes. */
  function ApplySessionUpdate(s: Session, args: SessionUpdateArgs, now: int): (r: Session)
    ensures r.agentRole == s.agentRole && r.owner == s.owner && r.repoPath == s.repoPath
    ensures r.terminalFingerprint == s.terminalFingerprint && r.startedAt == s.startedAt
    ensures r.lastSeenAt == now
    ensures (args.status.Some? ==> r.status == args.status.value) && (args.status.None? ==> r.status == s.status)
    ensures (args.intent.Some? ==> r.intent == args.intent.value) && (args.intent.None? ==> r.intent == s.intent)
    ensures (args.mainWorktree.Some? ==> r.mainWorktree == args.mainWorktree)
      && (args.mainWorktree.None? ==> r.mainWorktree == s.mainWorktree)
    ensures (args.sessionRoot.Some? ==> r.sessionRoot == args.sessionRoot)
      && (args.sessionRoot.None? ==> r.sessionRoot == s.sessionRoot)
    ensures (args.rootThread.Some? ==> r.rootThread == args.rootThread)
      && (args.rootThread.None? ==> r.rootThread == s.rootThread)
    ensures (args.tmuxSessionName.Some? ==> r.tmuxSessionName == args.tmuxSessionName)
      && (args.tmuxSessionName.None? ==> r.tmuxSessionName == s.tmuxSessionName)
    ensures (args.runtimeState.Some? ==> r.runtimeState == args.runtimeState)
      && (args.runtimeState.None? ==> r.runtimeState == s.runtimeState)
    ensures (args.delegationState.Some? ==> r.delegationState == args.delegationState)
      && (args.delegationState.None? ==> r.delegationState == s.delegationState)
    ensures (args.delegationRootThread.Some? ==> r.delegationRootThread == args.delegationRootThread)
      && (args.delegationRootThread.None? ==> r.delegationRootThread == s.delegationRootThread)
    ensures (args.delegationIssuedAt.Some? ==> r.delegationIssuedAt == args.delegationIssuedAt)
      && (args.delegationIssuedAt.None? ==> r.delegationIssuedAt == s.delegationIssuedAt)
    ensures (args.delegationAckedAt.Some? ==> r.delegationAckedAt == args.delegationAckedAt)
      && (args.delegationAckedAt.None? ==> r.delegationAckedAt == s.delegationAckedAt)
  {
    s.(status := SetIfGiven(args.status, s.status),
       mainWorktree := SetNullableIfGiven(args.mainWorktree, s.mainWorktree),
       sessionRoot := SetNullableIfGiven(args.sessionRoot, s.sessionRoot),
       rootThread := SetNullableIfGiven(args.rootThread, s.rootThread),
       tmuxSessionName := SetNullableIfGiven(args.tmuxSessionName, s.tmuxSessionName),
       runtimeState := SetNullableIfGiven(args.runtimeState, s.runtimeState),
       intent := SetIfGiven(args.intent, s.intent),
       delegationState := SetNullableIfGiven(args.delegationState, s.delegationState),
       delegationRootThread := SetNullableIfGiven(args.delegationRootThread, s.delegationRootThread),
       delegationIssuedAt := SetNullableIfGiven(args.delegationIssuedAt, s.delegationIssuedAt),
       delegationAckedAt := SetNullableIfGiven(args.delegationAckedAt, s.delegationAckedAt),
       lastSeenAt := now)
  }

  /** An update with no fields only refreshes `last_seen_at`. */
  lemma EmptySessionUpdate(s: Session, now: int)
    ensures ApplySessionUpdate(s, NoSessionChanges(), now) == s.(lastSeenAt := now)
  {
  }

  /** Applying the same update twice is the same as applying it once. */
  lemma SessionUpdateIdempotent(s: Session, args: SessionUpdateArgs, now: int)
    ensures ApplySessionUpdate(ApplySessionUpdate(s, args, now), args, now) == ApplySessionUpdate(s, args, now)
  {
  }

  /** `UpdateSession`: writes the given columns and `last_seen_at`; an
    * unknown id fails and changes nothing. */
  method UpdateSession(st: Store, sessionId: int, args: SessionUpdateArgs, now: int) returns (r: Result<Session>)
    requires st.Valid()
    modifies st`sessions, st`dbVersion, st`mirrorUpdatedAt
    ensures st.Valid() && st.worktrees == old(st.worktrees)
    ensures r.Ok? <==> sessionId in old(st.sessions.rows)
    ensures r.Err? ==> r.msg == SessionNotFound(sessionId) && st.sessions == old(st.sessions) && st.NotBumped()
    ensures r.Ok? ==>
      r.value == ApplySessionUpdate(old(st.sessions.rows[sessionId]), args, now)
      && st.sessions == old(st.sessions).Put(sessionId, r.value) && st.Bumped(now)
  {
    if sessionId !in st.sessions.rows {
      return Err(SessionNotFound(sessionId));
    }
    var updated := ApplySessionUpdate(st.sessions.rows[sessionId], args, now);
    st.PutSession(sessionId, updated);
    st.BumpVersion(now);
    r := Ok(updated);
  }

  /** `CloseSession`: `UpdateSession` with status "closed". */
  method CloseSession(st: Store, sessionId: int, now: int) returns (r: Result<Session>)
    requires st.Valid()
    modifies st`sessions, st`dbVersion, st`mirrorUpdatedAt
    ensures st.Valid()
    ensures r.Ok? <==> sessionId in old(st.sessions.rows)
    ensures r.Err? ==> r.msg == SessionNotFound(sessionId) && st.sessions == old(st.sessions) && st.NotBumped()
    ensures r.Ok? ==>
      r.value == old(st.sessions.rows[sessionId]).(status := "closed", lastSeenAt := now)
      && st.sessions == old(st.sessions).Put(sessionId, r.value) && st.Bumped(now)
  {
    r := UpdateSession(st, sessionId, NoSessionChanges().(status := Some("closed")), now);
  }

  // --------------------------------------------------------- current refs

  predicate IsActiveRefOf(c: CurrentRef, sessionId: int) {
    c.sessionId == sessionId && c.status == "active"
  }

  /** The session's active current ref, if any. The store keeps at most one
    * per session, so the newest-first order of the query does not matter. */
  function ActiveRef(refs: Table<CurrentRef>, sessionId: int): (r: Option<int>)
    requires refs.Valid()
    ensures r.Some? ==> r.value in refs.rows && IsActiveRefOf(refs.rows[r.value], sessionId)
    ensures r.None? ==> forall id :: id in refs.rows ==> !IsActiveRefOf(refs.rows[id], sessionId)
  {
    FirstId(refs.rows, (c: CurrentRef) => IsActiveRefOf(c, sessionId), 1, refs.lastId)
  }

  /** With at most one active ref per session, the ref `ActiveRef` finds is
    * the only one: any ordering of the candidates picks it. */
  lemma ActiveRefUnique(refs: Table<CurrentRef>, sessionId: int, id: int)
    requires refs.Valid() && OneActiveRefPerSession(refs.rows)
    requires id in refs.rows && IsActiveRefOf(refs.rows[id], sessionId)
    ensures ActiveRef(refs, sessionId) == Some(id)
  {
  }

  /** Rewriting a ref in place keeps at most one active ref per session as
    * long as it stays with its session and becomes active only if it was. */
  lemma PutRefKeepsOneActive(rows: map<int, CurrentRef>, id: int, c: CurrentRef)
    requires OneActiveRefPerSession(rows) && id in rows
    requires c.sessionId == rows[id].sessionId
    requires c.status == "active" ==> rows[id].status == "active"
    ensures OneActiveRefPerSession(rows[id := c])
  {
  }

  /** Adding a ref to a session that has no active ref keeps the invariant. */
  lemma AddRefKeepsOneActive(rows: map<int, CurrentRef>, id: int, c: CurrentRef)
    requires OneActiveRefPerSession(rows) && id !in rows
    requires forall k :: k in rows ==> !IsActiveRefOf(rows[k], c.sessionId)
    ensures OneActiveRefPerSession(rows[id := c])
  {
  }

  datatype RefUpsertArgs = RefUpsertArgs(
    sessionId: int, nodeType: string, nodeId: int, checkpointId: Option<int>, mode: string,
    status: string, nextAction: string, summary: string, requiredFilesJson: string)

  /** The argument checks of `UpsertCurrentRef`, in the order the store makes
    * them. */
  function ValidateRefUpsert(args: RefUpsertArgs): (r: Option<string>)
    ensures r.None? <==> args.sessionId > 0 && !IsBlank(args.nodeType) && args.nodeId > 0
    ensures args.sessionId <= 0 ==> r == Some("session_id is required")
    ensures args.sessionId > 0 && IsBlank(args.nodeType) ==> r == Some("node_type is required")
    ensures args.sessionId > 0 && !IsBlank(args.nodeType) && args.nodeId <= 0 ==> r == Some("node_id is required")
  {
    TrimSpaceBlank(args.nodeType);
    if args.sessionId <= 0 then Some("session_id is required")
    else if TrimSpace(args.nodeType) == "" then Some("node_type is required")
    else if args.nodeId <= 0 then Some("node_id is required")
    else None
  }

  /** The active ref rewritten by an upsert: new target and texts, mode and
    * status defaulted to "compact" and "active", version up by one, and the
    * acknowledgement cleared. Session and creation time stay. */
  function RewriteRef(c: CurrentRef, args: RefUpsertArgs, now: int): (r: CurrentRef)
    ensures r.sessionId == c.sessionId && r.createdAt == c.createdAt
    ensures r.version == c.version + 1 && r.ackedAt.None? && r.updatedAt == now
    ensures r.nodeType == args.nodeType && r.nodeId == args.nodeId && r.checkpointId == args.checkpointId
    ensures (IsBlank(args.mode) ==> r.mode == "compact") && (!IsBlank(args.mode) ==> r.mode == TrimSpace(args.mode))
    ensures (IsBlank(args.status) ==> r.status == "active") && (!IsBlank(args.status) ==> r.status == TrimSpace(args.status))
  {
    c.(nodeType := args.nodeType, nodeId := args.nodeId, checkpointId := args.checkpointId,
       mode := TrimOrDefault(args.mode, "compact"), status := TrimOrDefault(args.status, "active"),
       nextAction := NullableText(args.nextAction), summary := NullableText(args.summary),
       requiredFiles := NullableText(args.requiredFilesJson), version := c.version + 1,
       updatedAt := now, ackedAt := None)
  }

  /** The ref an upsert inserts when the session has no active one: version
    * 1, not acknowledged. */
  function NewRef(args: RefUpsertArgs, now: int): (r: CurrentRef)
    ensures r.sessionId == args.sessionId && r.version == 1 && r.ackedAt.None?
    ensures r.nodeType == args.nodeType && r.nodeId == args.nodeId && r.checkpointId == args.checkpointId
    ensures (IsBlank(args.status) ==> r.status == "active") && (!IsBlank(args.status) ==> r.status == TrimSpace(args.status))
    ensures r.createdAt == now && r.updatedAt == now
  {
    CurrentRef(args.sessionId, args.nodeType, args.nodeId, args.checkpointId,
               TrimOrDefault(args.mode, "compact"), TrimOrDefault(args.status, "active"),
               NullableText(args.nextAction), NullableText(args.summary),
               NullableText(args.requiredFilesJson), None, 1, now, now)
  }

  /** The refs table after a valid upsert: the session's active ref is
    * rewritten in place when it has one, otherwise a new ref is appended. */
  function AfterUpsert(refs: Table<CurrentRef>, args: RefUpsertArgs, now: int): (t: Table<CurrentRef>)
    requires refs.Valid()
  {
    match ActiveRef(refs, args.sessionId)
    case Some(id) => refs.Put(id, RewriteRef(refs.rows[id], args, now))
    case None => refs.Insert(NewRef(args, now))
  }

  /** The id of the ref a valid upsert writes. */
  function UpsertedId(refs: Table<CurrentRef>, args: RefUpsertArgs): (id: int)
    requires refs.Valid()
    ensures id == (if ActiveRef(refs, args.sessionId).Some? then ActiveRef(refs, args.sessionId).value else refs.lastId + 1)
  {
    match ActiveRef(refs, args.sessionId)
    case Some(id) => id
    case None => refs.lastId + 1
  }

  /** An upsert keeps at most one active ref per session, never duplicates a
    * session's active ref, and the written ref carries the upsert's target. */
  lemma UpsertKeepsOneActive(refs: Table<CurrentRef>, args: RefUpsertArgs, now: int)
    requires refs.Valid() && OneActiveRefPerSession(refs.rows)
    ensures AfterUpsert(refs, args, now).Valid()
    ensures OneActiveRefPerSession(AfterUpsert(refs, args, now).rows)
    ensures var t := AfterUpsert(refs, args, now);
      UpsertedId(refs, args) in t.rows
      && t.rows[UpsertedId(refs, args)].sessionId == args.sessionId
      && t.rows[UpsertedId(refs, args)].nodeId == args.nodeId
      && t.rows[UpsertedId(refs, args)].ackedAt.None?
  {
    match ActiveRef(refs, args.sessionId)
    case Some(id) =>
      PutRefKeepsOneActive(refs.rows, id, RewriteRef(refs.rows[id], args, now));
    case None =>
      InsertFresh(refs, NewRef(args, now));
      AddRefKeepsOneActive(refs.rows, refs.lastId + 1, NewRef(args, now));
  }

  /** `UpsertCurrentRef`: rewrites the session's active ref in place when it
    * has one and inserts a new ref otherwise. Either way a session never
    * holds two active refs. */
  method UpsertCurrentRef(st: Store, args: RefUpsertArgs, now: int) returns (r: Result<int>)
    requires st.Valid()
    modifies st`refs, st`dbVersion, st`mirrorUpdatedAt
    ensures st.Valid()
    ensures ValidateRefUpsert(args).Some? ==> r == Err(ValidateRefUpsert(args).value)
    ensures r.Ok? <==> ValidateRefUpsert(args).None?
    ensures r.Err? ==> st.refs == old(st.refs) && st.NotBumped()
    ensures r.Ok? ==>
      r.value == UpsertedId(old(st.refs), args) && st.refs == AfterUpsert(old(st.refs), args, now)
      && st.Bumped(now)
  {
    var invalid := ValidateRefUpsert(args);
    if invalid.Some? {
      return Err(invalid.value);
    }
    r := WriteRef(st, args, now);
  }

  /** The transaction body of `UpsertCurrentRef` for valid arguments. */
  method WriteRef(st: Store, args: RefUpsertArgs, now: int) returns (r: Result<int>)
    requires st.Valid()
    modifies st`refs, st`dbVersion, st`mirrorUpdatedAt
    ensures st.Valid()
    ensures r == Ok(UpsertedId(old(st.refs), args)) && st.refs == AfterUpsert(old(st.refs), args, now)
    ensures st.Bumped(now)
  {
    UpsertKeepsOneActive(st.refs, args, now);
    r := Ok(UpsertedId(st.refs, args));
    st.SetRefs(AfterUpsert(st.refs, args, now));
    st.BumpVersion(now);
  }

  function RefNotFound(refId: int, sessionId: int): string {
    "current_ref not found: id=" + IntToString(refId) + " session=" + IntToString(sessionId)
  }

  /** `AckCurrentRef`: acknowledges a ref only for the session that owns it,
    * recording the time and raising the version. */
  method AckCurrentRef(st: Store, sessionId: int, refId: int, now: int) returns (r: Result<CurrentRef>)
    requires st.Valid()
    modifies st`refs, st`dbVersion, st`mirrorUpdatedAt
    ensures st.Valid()
    ensures r.Ok? <==> refId in old(st.refs.rows) && old(st.refs.rows[refId]).sessionId == sessionId
    ensures r.Err? ==> r.msg == RefNotFound(refId, sessionId) && st.refs == old(st.refs) && st.NotBumped()
    ensures r.Ok? ==>
      var before := old(st.refs.rows[refId]);
      r.value == before.(ackedAt := Some(now), updatedAt := now, version := before.version + 1)
      && st.refs == old(st.refs).Put(refId, r.value) && st.Bumped(now)
  {
    if refId !in st.refs.rows || st.refs.rows[refId].sessionId != sessionId {
      return Err(RefNotFound(refId, sessionId));
    }
    var before := st.refs.rows[refId];
    var c := before.(ackedAt := Some(now), updatedAt := now, version := before.version + 1);
    PutRefKeepsOneActive(st.refs.rows, refId, c);
    st.SetRefs(st.refs.Put(refId, c));
    st.BumpVersion(now);
    r := Ok(c);
  }

  // ---------------------------------------------------------- merge queue

  /** A child worktree that blocks merging its parent into main. */
  predicate IsUnmergedChild(w: Worktree, parentId: int) {
    w.parent == Some(parentId) && w.kind == "task_branch" && w.mergeState != "merged_to_parent"
  }

  /** The `COUNT(*)` of unmerged task-branch children of a worktree. */
  function UnmergedChildren(worktrees: Table<Worktree>, parentId: int): (n: nat)
    ensures n == 0 <==> forall id :: (id in worktrees.rows && 1 <= id <= worktrees.lastId
      ==> !IsUnmergedChild(worktrees.rows[id], parentId))
  {
    CountWhere(worktrees.rows, (w: Worktree) => IsUnmergedChild(w, parentId), 1, worktrees.lastId)
  }

  datatype MergeRequestArgs = MergeRequestArgs(sessionId: int, fromWorktree: int, targetBranch: string)

  /** `EnqueueMainMergeRequest`: positive ids are required, and the request is
    * refused while the source worktree has an unmerged task-branch child;
    * otherwise it is queued for the target branch (default "main"). */
  method EnqueueMainMergeRequest(st: Store, args: MergeRequestArgs, now: int) returns (r: Result<int>)
    requires st.Valid()
    modifies st`queue, st`dbVersion, st`mirrorUpdatedAt
    ensures st.Valid() && st.sessions == old(st.sessions) && st.worktrees == old(st.worktrees)
    ensures args.sessionId <= 0 ==> r == Err("session_id is required")
    ensures args.sessionId > 0 && args.fromWorktree <= 0 ==> r == Err("from_worktree_id is required")
    ensures args.sessionId > 0 && args.fromWorktree > 0 && UnmergedChildren(st.worktrees, args.fromWorktree) > 0 ==>
      r == Err("session-root has " + IntToString(UnmergedChildren(st.worktrees, args.fromWorktree)) + " unmerged child worktrees")
    ensures r.Ok? <==> args.sessionId > 0 && args.fromWorktree > 0 && UnmergedChildren(st.worktrees, args.fromWorktree) == 0
    ensures r.Err? ==> st.queue == old(st.queue) && st.NotBumped()
    ensures r.Ok? ==>
      r.value == old(st.queue.lastId) + 1
      && st.queue == old(st.queue).Insert(QueueItem(args.sessionId, args.fromWorktree,
                                                     TrimOrDefault(args.targetBranch, "main"), "queued", now, now))
      && st.Bumped(now)
  {
    if args.sessionId <= 0 {
      return Err("session_id is required");
    }
    if args.fromWorktree <= 0 {
      return Err("from_worktree_id is required");
    }
    var unmerged := UnmergedChildren(st.worktrees, args.fromWorktree);
    if unmerged > 0 {
      return Err("session-root has " + IntToString(unmerged) + " unmerged child worktrees");
    }
    var id := st.InsertQueueItem(QueueItem(args.sessionId, args.fromWorktree,
                                           TrimOrDefault(args.targetBranch, "main"), "queued", now, now));
    st.BumpVersion(now);
    r := Ok(id);
  }

  predicate IsQueued(q: QueueItem) {
    q.state == "queued"
  }

  /** `NextMainMergeRequest`: the queued request with the smallest id. */
  function NextMainMergeRequest(queue: Table<QueueItem>): (r: Option<int>)
    requires queue.Valid()
    ensures r.Some? ==> r.value in queue.rows && IsQueued(queue.rows[r.value])
    ensures r.Some? ==> forall id :: id in queue.rows && id < r.value ==> !IsQueued(queue.rows[id])
    ensures r.None? ==> forall id :: id in queue.rows ==> !IsQueued(queue.rows[id])
  {
    FirstId(queue.rows, IsQueued, 1, queue.lastId)
  }

  /** The queue is first-in first-out: enqueueing never displaces the head,
    * and into a queue with nothing queued the new request becomes the head. */
  lemma EnqueueKeepsHead(queue: Table<QueueItem>, item: QueueItem)
    requires queue.Valid() && IsQueued(item)
    ensures queue.Insert(item).Valid()
    ensures NextMainMergeRequest(queue).Some? ==>
      NextMainMergeRequest(queue.Insert(item)) == NextMainMergeRequest(queue)
    ensures NextMainMergeRequest(queue).None? ==>
      NextMainMergeRequest(queue.Insert(item)) == Some(queue.lastId + 1)
  {
    InsertFresh(queue, item);
    if NextMainMergeRequest(queue).None? {
      assert IsQueued(queue.Insert(item).rows[queue.lastId + 1]);
    }
  }

  // ----------------------------------------------------------- merge lock

  /** The refusal rule of `AcquireMainMergeLock`: the lock is held, its lease
    * has not run out, and the caller is not the holder. */
  predicate HeldByOther(l: MergeLock, sessionId: int, now: int) {
    EqualFold(l.state, "locked") && l.leaseUntil.Some? && l.leaseUntil.value > now
    && (l.holder.None? || l.holder.value != sessionId)
  }

  function HolderOrZero(l: MergeLock): int {
    if l.holder.Some? then l.holder.value else 0
  }

  /** `AcquireMainMergeLock`: takes or renews the lock for `sessionId` unless
    * another session holds an unexpired lease. */
  method AcquireMainMergeLock(st: Store, sessionId: int, ttlSeconds: int, now: int) returns (r: Result<MergeLock>)
    requires st.Valid()
    modifies st`mergeLock, st`dbVersion, st`mirrorUpdatedAt
    ensures st.Valid()
    ensures sessionId <= 0 ==> r == Err("session_id is required")
    ensures sessionId > 0 && HeldByOther(old(st.mergeLock), sessionId, now) ==>
      r == Err("main merge lock held by session " + IntToString(HolderOrZero(old(st.mergeLock)))
               + " until " + Stamp(old(st.mergeLock).leaseUntil.value))
    ensures r.Ok? <==> sessionId > 0 && !HeldByOther(old(st.mergeLock), sessionId, now)
    ensures r.Err? ==> st.mergeLock == old(st.mergeLock) && st.NotBumped()
    ensures r.Ok? ==>
      var ttl := if ttlSeconds <= 0 then DefaultMergeLockTtlSeconds else ttlSeconds;
      r.value == MergeLock(Some(sessionId), Some(now + ttl), "locked", now)
      && st.mergeLock == r.value && st.Bumped(now)
  {
    if sessionId <= 0 {
      return Err("session_id is required");
    }
    var ttl := if ttlSeconds <= 0 then DefaultMergeLockTtlSeconds else ttlSeconds;
    var l := st.mergeLock;
    if HeldByOther(l, sessionId, now) {
      return Err("main merge lock held by session " + IntToString(HolderOrZero(l)) + " until " + Stamp(l.leaseUntil.value));
    }
    var locked := MergeLock(Some(sessionId), Some(now + ttl), "locked", now);
    st.SetMergeLock(locked);
    st.BumpVersion(now);
    r := Ok(locked);
  }

  /** Mutual exclusion: once a session has acquired the lock, every other
    * session is refused until the lease runs out, while the holder itself
    * may always renew. */
  lemma MergeLockExclusive(holder: int, ttl: int, at: int, other: int, later: int)
    requires ttl > 0 && other != holder && later < at + ttl
    ensures HeldByOther(MergeLock(Some(holder), Some(at + ttl), "locked", at), other, later)
    ensures !HeldByOther(MergeLock(Some(holder), Some(at + ttl), "locked", at), holder, later)
  {
  }

  /** A lease that has run out no longer blocks anyone. */
  lemma MergeLockLeaseLapses(l: MergeLock, sessionId: int, now: int)
    requires l.leaseUntil.Some? && l.leaseUntil.value <= now
    ensures !HeldByOther(l, sessionId, now)
  {
  }

  /** `ReleaseMainMergeLock`: only the holder (or anyone, when nobody holds
    * it) may release; the lock is then free, with holder and lease cleared. */
  method ReleaseMainMergeLock(st: Store, sessionId: int, now: int) returns (r: Result<MergeLock>)
    requires st.Valid()
    modifies st`mergeLock, st`dbVersion, st`mirrorUpdatedAt
    ensures st.Valid()
    ensures sessionId <= 0 ==> r == Err("session_id is required")
    ensures sessionId > 0 && old(st.mergeLock).holder.Some? && old(st.mergeLock).holder.value != sessionId ==>
      r == Err("main merge lock is held by another session")
    ensures r.Ok? <==> sessionId > 0 && (old(st.mergeLock).holder.None? || old(st.mergeLock).holder == Some(sessionId))
    ensures r.Err? ==> st.mergeLock == old(st.mergeLock) && st.NotBumped()
    ensures r.Ok? ==>
      r.value == MergeLock(None, None, "unlocked", now) && st.mergeLock == r.value && st.Bumped(now)
      && forall s :: !HeldByOther(st.mergeLock, s, now)
  {
    if sessionId <= 0 {
      return Err("session_id is required");
    }
    if st.mergeLock.holder.Some? && st.mergeLock.holder.value != sessionId {
      return Err("main merge lock is held by another session");
    }
    var unlocked := MergeLock(None, None, "unlocked", now);
    st.SetMergeLock(unlocked);
    st.BumpVersion(now);
    r := Ok(unlocked);
  }

  // -------------------------------------------------------- main worktree

  /** A `kind = 'main'` row recorded for the checkout at `repoPath`. */
  predicate IsMainOf(w: Worktree, repoPath: string) {
    w.kind == "main" && w.path == repoPath
  }

  /** What `... WHERE kind = 'main' AND path = ? ORDER BY id DESC LIMIT 1`
    * finds among ids `1..hi`: the newest main row of the checkout. */
  function NewestMainWorktree(rows: map<int, Worktree>, repoPath: string, hi: int): (r: Option<int>)
    ensures r.Some? ==> 1 <= r.value <= hi && r.value in rows && IsMainOf(rows[r.value], repoPath)
    ensures r.Some? ==> forall id :: r.value < id <= hi && id in rows ==> !IsMainOf(rows[id], repoPath)
    ensures r.None? ==> forall id :: 1 <= id <= hi && id in rows ==> !IsMainOf(rows[id], repoPath)
    decreases hi
  {
    if hi < 1 then None
    else if hi in rows && IsMainOf(rows[hi], repoPath) then Some(hi)
    else NewestMainWorktree(rows, repoPath, hi - 1)
  }

  /** The row `CreateOrGetMainWorktree` records when the checkout has none. */
  function MainWorktreeArgs(repoPath: string, branch: string): CoreStore.WorktreeCreateArgs {
    CoreStore.WorktreeCreateArgs(0, repoPath, branch, "active", "main", None, None, "attached")
  }

  /** That row is an active, attached main worktree of the checkout, tied to
    * no task. */
  lemma MainWorktreeRow(repoPath: string, branch: string, now: int)
    ensures var w := CoreStore.WorktreeRow(MainWorktreeArgs(repoPath, branch), now);
      IsMainOf(w, repoPath) && w.taskId == 0 && w.branch == branch
      && w.status == "active" && w.mergeState == "attached" && w.parent.None? && w.ownerSession.None?
  {
    WordNotBlank("active");
    WordNotBlank("main");
    WordNotBlank("attached");
  }

  /** The id the lookup-or-insert settles on: the newest main row, else the
    * next id of the table. */
  function MainWorktreeId(worktrees: Table<Worktree>, repoPath: string): int {
    var found := NewestMainWorktree(worktrees.rows, repoPath, worktrees.lastId);
    if found.Some? then found.value else worktrees.lastId + 1
  }

  /** `CreateOrGetMainWorktree`: the checkout's newest main row when there
    * is one, with nothing written; otherwise a new main row through
    * `CreateWorktreeRecord`, which refuses a blank path or branch. */
  method CreateOrGetMainWorktree(st: Store, repoPath: string, branch: string, now: int) returns (r: Result<int>)
    requires st.Valid()
    modifies st`worktrees, st`dbVersion, st`mirrorUpdatedAt
    ensures st.Valid()
    ensures var found := NewestMainWorktree(old(st.worktrees.rows), repoPath, old(st.worktrees.lastId));
      found.Some? ==> r == Ok(found.value) && st.worktrees == old(st.worktrees) && st.NotBumped()
    ensures var found := NewestMainWorktree(old(st.worktrees.rows), repoPath, old(st.worktrees.lastId));
      found.None? ==>
        (IsBlank(repoPath) ==> r == Err("path is required"))
        && (!IsBlank(repoPath) && IsBlank(branch) ==> r == Err("branch is required"))
        && (r.Err? ==> st.worktrees == old(st.worktrees) && st.NotBumped())
        && (r.Ok? ==>
              st.worktrees == old(st.worktrees).Insert(CoreStore.WorktreeRow(MainWorktreeArgs(repoPath, branch), now))
              && st.Bumped(now))
    ensures r.Ok? <==> NewestMainWorktree(old(st.worktrees.rows), repoPath, old(st.worktrees.lastId)).Some?
                       || (!IsBlank(repoPath) && !IsBlank(branch))
    ensures r.Ok? ==>
      r.value == MainWorktreeId(old(st.worktrees), repoPath)
      && r.value in st.worktrees.rows && IsMainOf(st.worktrees.rows[r.value], repoPath)
  {
    var found := NewestMainWorktree(st.worktrees.rows, repoPath, st.worktrees.lastId);
    if found.Some? {
      r := Ok(found.value);
    } else {
      MainWorktreeRow(repoPath, branch, now);
      r := CoreStore.CreateWorktreeRecord(st, MainWorktreeArgs(repoPath, branch), now);
    }
  }

  /** Lookup-or-insert settles: once a call has inserted the main row, the
    * next call finds that row. */
  lemma MainWorktreeFoundAfterInsert(worktrees: Table<Worktree>, repoPath: string, branch: string, now: int)
    requires worktrees.Valid() && NewestMainWorktree(worktrees.rows, repoPath, worktrees.lastId).None?
    ensures var after := worktrees.Insert(CoreStore.WorktreeRow(MainWorktreeArgs(repoPath, branch), now));
      NewestMainWorktree(after.rows, repoPath, after.lastId) == Some(worktrees.lastId + 1)
      && MainWorktreeId(after, repoPath) == MainWorktreeId(worktrees, repoPath)
  {
    var row := CoreStore.WorktreeRow(MainWorktreeArgs(repoPath, branch), now);
    MainWorktreeRow(repoPath, branch, now);
    var after := worktrees.Insert(row);
    assert after.lastId == worktrees.lastId + 1 && after.rows[after.lastId] == row;
  }

  // ------------------------------------------------------------ worktrees

  /** The row `MarkWorktreeMergedToParent` writes. */
  function MergedToParent(w: Worktree, now: int): (r: Worktree)
    ensures r.mergeState == "merged_to_parent" && r.status == "closed" && r.mergedAt == Some(now)
    ensures r.parent == w.parent && r.kind == w.kind && r.path == w.path && r.branch == w.branch
  {
    w.(mergeState := "merged_to_parent", status := "closed", mergedAt := Some(now))
  }

  /** Marking an unmerged child merged lowers its parent's unmerged count by
    * exactly one; marking any other worktree leaves the count alone. */
  lemma MergedChildUnblocksParent(worktrees: Table<Worktree>, id: int, parentId: int, now: int)
    requires worktrees.Valid() && id in worktrees.rows
    ensures var after := worktrees.Put(id, MergedToParent(worktrees.rows[id], now));
      UnmergedChildren(after, parentId)
      == UnmergedChildren(worktrees, parentId) - (if IsUnmergedChild(worktrees.rows[id], parentId) then 1 else 0)
  {
    CountWherePut(worktrees.rows, (w: Worktree) => IsUnmergedChild(w, parentId), 1, worktrees.lastId,
                  id, MergedToParent(worktrees.rows[id], now));
  }

  /** `MarkWorktreeMergedToParent`: the worktree becomes merged_to_parent and
    * closed with its merge time; an unknown id fails. */
  method MarkWorktreeMergedToParent(st: Store, worktreeId: int, now: int) returns (r: Result<Worktree>)
    requires st.Valid()
    modifies st`worktrees, st`dbVersion, st`mirrorUpdatedAt
    ensures st.Valid()
    ensures r.Ok? <==> worktreeId in old(st.worktrees.rows)
    ensures r.Err? ==>
      r.msg == "worktree not found: " + IntToString(worktreeId)
      && st.worktrees == old(st.worktrees) && st.NotBumped()
    ensures r.Ok? ==>
      r.value == MergedToParent(old(st.worktrees.rows[worktreeId]), now)
      && st.worktrees == old(st.worktrees).Put(worktreeId, r.value) && st.Bumped(now)
  {
    if worktreeId !in st.worktrees.rows {
      return Err("worktree not found: " + IntToString(worktreeId));
    }
    var w := MergedToParent(st.worktrees.rows[worktreeId], now);
    st.PutWorktree(worktreeId, w);
    st.BumpVersion(now);
    r := Ok(w);
  }

  // ---------------------------------------------------------------- resume

  /** The session filter of `ListResumeCandidates`: same repository, not the
    * requester, in a live status, and silent since before the cutoff. */
  predicate IsSuspended(s: Session, id: int, repoPath: string, requester: int, cutoff: int) {
    s.repoPath == repoPath && id != requester
    && (s.status == "active_new" || s.status == "active_resume" || s.status == "handoff_attached")
    && s.lastSeenAt < cutoff
  }

  /** The session ids of `ids` appear in ascending `last_seen_at` order. */
  predicate ByLastSeen(sessions: map<int, Session>, ids: seq<int>) {
    (forall i :: 0 <= i < |ids| ==> ids[i] in sessions)
    && forall i, j :: 0 <= i < j < |ids| ==> sessions[ids[i]].lastSeenAt <= sessions[ids[j]].lastSeenAt
  }

  /** Distinct elements. */
  predicate Distinct(ids: seq<int>) {
    forall i, j :: 0 <= i < j < |ids| ==> ids[i] != ids[j]
  }

  /** Inserts `id` after every session seen no later than it. */
  function InsertByLastSeen(sessions: map<int, Session>, ids: seq<int>, id: int): (r: seq<int>)
    requires id in sessions && ByLastSeen(sessions, ids)
    requires Distinct(ids) && id !in ids
    ensures ByLastSeen(sessions, r) && Distinct(r)
    ensures |r| == |ids| + 1
    ensures forall x :: x in r <==> x in ids || x == id
    decreases |ids|
  {
    if |ids| == 0 then [id]
    else if sessions[id].lastSeenAt < sessions[ids[0]].lastSeenAt then [id] + ids
    else
      assert ids == [ids[0]] + ids[1..];
      var rest := InsertByLastSeen(sessions, ids[1..], id);
      assert forall x :: x in rest ==> sessions[ids[0]].lastSeenAt <= sessions[x].lastSeenAt && x != ids[0];
      [ids[0]] + rest
  }

  /** The `SELECT ... ORDER BY last_seen_at ASC` of suspended sessions. */
  method SuspendedSessions(sessions: Table<Session>, repoPath: string, requester: int, cutoff: int)
    returns (ids: seq<int>)
    requires sessions.Valid()
    ensures ByLastSeen(sessions.rows, ids) && Distinct(ids)
    ensures forall id :: id in ids <==> id in sessions.rows && IsSuspended(sessions.rows[id], id, repoPath, requester, cutoff)
  {
    ids := [];
    var id := 1;
    while id <= sessions.lastId
      invariant 1 <= id <= sessions.lastId + 1
      invariant ByLastSeen(sessions.rows, ids) && Distinct(ids)
      invariant forall k :: k in ids <==> k in sessions.rows && k < id && IsSuspended(sessions.rows[k], k, repoPath, requester, cutoff)
    {
      if id in sessions.rows && IsSuspended(sessions.rows[id], id, repoPath, requester, cutoff) {
        ids := InsertByLastSeen(sessions.rows, ids, id);
      }
      id := id + 1;
    }
  }

  datatype ResumeCandidate = ResumeCandidate(sessionId: int, refId: int, sessionRoot: Option<int>)

  function CandidateIds(cs: seq<ResumeCandidate>): (r: seq<int>)
    ensures |r| == |cs|
    ensures forall i :: 0 <= i < |cs| ==> r[i] == cs[i].sessionId
  {
    seq(|cs|, i requires 0 <= i < |cs| => cs[i].sessionId)
  }

  /** A suspended session whose session-root worktree row is missing. */
  predicate RootMissing(sessions: Table<Session>, worktrees: Table<Worktree>, id: int) {
    id in sessions.rows && sessions.rows[id].sessionRoot.Some?
    && sessions.rows[id].sessionRoot.value !in worktrees.rows
  }

  /** The candidate pass of `ListResumeCandidates` over the suspended
    * sessions, in their order: a session without an active current ref is
    * skipped, a missing session-root worktree aborts the listing, and every
    * other session yields a candidate. */
  method CollectCandidates(sessions: Table<Session>, refs: Table<CurrentRef>, worktrees: Table<Worktree>,
                           suspended: seq<int>)
    returns (r: Result<seq<ResumeCandidate>>)
    requires refs.Valid()
    requires forall i :: 0 <= i < |suspended| ==> suspended[i] in sessions.rows
    ensures r.Err? <==> exists i :: 0 <= i < |suspended| && ActiveRef(refs, suspended[i]).Some?
                                   && RootMissing(sessions, worktrees, suspended[i])
    ensures r.Ok? ==> forall c :: c in r.value ==>
      c.sessionId in suspended && ActiveRef(refs, c.sessionId) == Some(c.refId)
      && c.sessionRoot == sessions.rows[c.sessionId].sessionRoot
    ensures r.Ok? ==> forall i :: 0 <= i < |suspended| && ActiveRef(refs, suspended[i]).Some? ==>
      suspended[i] in CandidateIds(r.value)
    ensures r.Ok? ==> exists at: seq<int> ::
      |at| == |r.value|
      && (forall i :: 0 <= i < |at| ==> 0 <= at[i] < |suspended| && suspended[at[i]] == r.value[i].sessionId)
      && (forall i, j :: 0 <= i < j < |at| ==> at[i] < at[j])
  {
    var out: seq<ResumeCandidate> := [];
    ghost var at: seq<int> := [];
    var k := 0;
    while k < |suspended|
      invariant 0 <= k <= |suspended|
      invariant forall c :: c in out ==>
        c.sessionId in suspended && ActiveRef(refs, c.sessionId) == Some(c.refId)
        && c.sessionRoot == sessions.rows[c.sessionId].sessionRoot
      invariant forall i :: 0 <= i < k && ActiveRef(refs, suspended[i]).Some? ==>
        suspended[i] in CandidateIds(out) && !RootMissing(sessions, worktrees, suspended[i])
      invariant |at| == |out|
      invariant forall i :: 0 <= i < |at| ==> 0 <= at[i] < k && suspended[at[i]] == out[i].sessionId
      invariant forall i, j :: 0 <= i < j < |at| ==> at[i] < at[j]
    {
      var sid := suspended[k];
      var ref := ActiveRef(refs, sid);
      if ref.Some? {
        var root := sessions.rows[sid].sessionRoot;
        if root.Some? && root.value !in worktrees.rows {
          assert RootMissing(sessions, worktrees, suspended[k]);
          return Err(NoRows);
        }
        assert CandidateIds(out + [ResumeCandidate(sid, ref.value, root)]) == CandidateIds(out) + [sid];
        out := out + [ResumeCandidate(sid, ref.value, root)];
        at := at + [k];
      }
      k := k + 1;
    }
    r := Ok(out);
  }

  /** Candidates listed in the order of an ordered list of sessions are
    * themselves ordered. */
  lemma CandidatesOrdered(sessions: Table<Session>, suspended: seq<int>, out: seq<ResumeCandidate>, at: seq<int>)
    requires ByLastSeen(sessions.rows, suspended)
    requires |at| == |out|
    requires forall i :: 0 <= i < |at| ==> 0 <= at[i] < |suspended| && suspended[at[i]] == out[i].sessionId
    requires forall i, j :: 0 <= i < j < |at| ==> at[i] < at[j]
    ensures forall i, j :: 0 <= i < j < |out| ==>
      sessions.rows[out[i].sessionId].lastSeenAt <= sessions.rows[out[j].sessionId].lastSeenAt
  {
    forall i, j | 0 <= i < j < |out|
      ensures sessions.rows[out[i].sessionId].lastSeenAt <= sessions.rows[out[j].sessionId].lastSeenAt
    {
      assert suspended[at[i]] == out[i].sessionId && suspended[at[j]] == out[j].sessionId;
    }
  }

  /** The resume candidates among the sessions whose heartbeat is older
    * than `cutoff`. */
  method ResumeCandidatesBefore(sessions: Table<Session>, refs: Table<CurrentRef>, worktrees: Table<Worktree>,
                                repoPath: string, requester: int, cutoff: int)
    returns (r: Result<seq<ResumeCandidate>>)
    requires sessions.Valid() && refs.Valid()
    ensures r.Err? <==> exists id :: id in sessions.rows && IsSuspended(sessions.rows[id], id, repoPath, requester, cutoff)
                                   && ActiveRef(refs, id).Some? && RootMissing(sessions, worktrees, id)
    ensures r.Ok? ==> forall c :: c in r.value ==>
      c.sessionId in sessions.rows && IsSuspended(sessions.rows[c.sessionId], c.sessionId, repoPath, requester, cutoff)
      && ActiveRef(refs, c.sessionId) == Some(c.refId)
      && c.sessionRoot == sessions.rows[c.sessionId].sessionRoot
    ensures r.Ok? ==> forall id :: (id in sessions.rows && IsSuspended(sessions.rows[id], id, repoPath, requester, cutoff)
                                    && ActiveRef(refs, id).Some?) ==> id in CandidateIds(r.value)
    ensures r.Ok? ==> forall i, j :: 0 <= i < j < |r.value| ==>
      r.value[i].sessionId in sessions.rows && r.value[j].sessionId in sessions.rows
      && sessions.rows[r.value[i].sessionId].lastSeenAt <= sessions.rows[r.value[j].sessionId].lastSeenAt
  {
    var suspended := SuspendedSessions(sessions, repoPath, requester, cutoff);
    r := CollectCandidates(sessions, refs, worktrees, suspended);
    if r.Ok? {
      ghost var at :| |at| == |r.value|
        && (forall i :: 0 <= i < |at| ==> 0 <= at[i] < |suspended| && suspended[at[i]] == r.value[i].sessionId)
        && (forall i, j :: 0 <= i < j < |at| ==> at[i] < at[j]);
      CandidatesOrdered(sessions, suspended, r.value, at);
    }
  }

  /** `ListResumeCandidates`: the suspended sessions of the repository, stalest
    * first, that still have an active current ref, each with its ref and its
    * session-root worktree. A heartbeat timeout of zero or less means 60
    * seconds. */
  method ListResumeCandidates(st: Store, repoPath: string, requester: int, timeoutSeconds: int, now: int)
    returns (r: Result<seq<ResumeCandidate>>)
    requires st.Valid()
    ensures var cutoff := now - (if timeoutSeconds <= 0 then DefaultHeartbeatTimeoutSeconds else timeoutSeconds);
      r.Err? <==> exists id :: id in st.sessions.rows && IsSuspended(st.sessions.rows[id], id, repoPath, requester, cutoff)
                               && ActiveRef(st.refs, id).Some? && RootMissing(st.sessions, st.worktrees, id)
    ensures var cutoff := now - (if timeoutSeconds <= 0 then DefaultHeartbeatTimeoutSeconds else timeoutSeconds);
      r.Ok? ==> forall c :: c in r.value ==>
        c.sessionId in st.sessions.rows && IsSuspended(st.sessions.rows[c.sessionId], c.sessionId, repoPath, requester, cutoff)
        && ActiveRef(st.refs, c.sessionId) == Some(c.refId)
        && c.sessionRoot == st.sessions.rows[c.sessionId].sessionRoot
    ensures var cutoff := now - (if timeoutSeconds <= 0 then DefaultHeartbeatTimeoutSeconds else timeoutSeconds);
      r.Ok? ==> forall id :: (id in st.sessions.rows && IsSuspended(st.sessions.rows[id], id, repoPath, requester, cutoff)
                              && ActiveRef(st.refs, id).Some?) ==> id in CandidateIds(r.value)
    ensures r.Ok? ==> forall i, j :: 0 <= i < j < |r.value| ==>
      r.value[i].sessionId in st.sessions.rows && r.value[j].sessionId in st.sessions.rows
      && st.sessions.rows[r.value[i].sessionId].lastSeenAt <= st.sessions.rows[r.value[j].sessionId].lastSeenAt
  {
    var timeout := if timeoutSeconds <= 0 then DefaultHeartbeatTimeoutSeconds else timeoutSeconds;
    r := ResumeCandidatesBefore(st.sessions, st.refs, st.worktrees, repoPath, requester, now - timeout);
  }
}
