/** Threads (the agent panes of a session), review jobs and runtime
  * prerequisite events. Status changes stamp `started_at` and
  * `completed_at` at most once. */
module ThreadStore {
  import opened Text
  import opened StoreSchema

  // -------------------------------------------------------------- threads

  /** `isThreadTerminalStatus`: completed, failed, stopped or cancelled, in
    * any case and with surrounding white space. */
  predicate IsThreadTerminalStatus(status: string) {
    var c := Canon(status);
    c == "completed" || c == "failed" || c == "stopped" || c == "cancelled"
  }

  /** Terminality depends only on the canonical form of a status. */
  lemma TerminalStatusCanonical(status: string)
    ensures IsThreadTerminalStatus(Canon(status)) <==> IsThreadTerminalStatus(status)
  {
    CanonIdempotent(status);
  }

  /** "running" (in any case) is never terminal. */
  lemma RunningNotTerminal(status: string)
    requires EqualFold(TrimSpace(status), "running")
    ensures !IsThreadTerminalStatus(status)
  {
    var r := "running";
    assert ToLower(r) == r by {
      assert forall i :: 0 <= i < |r| ==> ToLowerChar(r[i]) == r[i];
    }
    var c := Canon(status);
    assert c == r;
    assert c[0] == 'r';
  }

  datatype ThreadCreateArgs = ThreadCreateArgs(
    sessionId: int, parent: Option<int>, role: string, status: string, title: string,
    objective: string, worktreeId: Option<int>, guidePath: string, agentOverride: string)

  /** The row `CreateThread` inserts: role and status trimmed with defaults
    * "worker" and "planned", texts nullable, no tmux coordinates or launch
    * command yet, and a start time only for a running thread. */
  function CreatedThread(args: ThreadCreateArgs, now: int): (t: Thread)
    ensures t.sessionId == args.sessionId && t.parent == args.parent && t.worktreeId == args.worktreeId
    ensures (IsBlank(args.role) ==> t.role == "worker") && (!IsBlank(args.role) ==> t.role == TrimSpace(args.role))
    ensures (IsBlank(args.status) ==> t.status == "planned")
      && (!IsBlank(args.status) ==> t.status == TrimSpace(args.status))
    ensures t.startedAt.Some? <==> EqualFold(t.status, "running")
    ensures t.startedAt.Some? ==> t.startedAt.value == now
    ensures t.completedAt.None? && t.tmuxSession.None? && t.tmuxWindow.None? && t.tmuxPane.None?
    ensures t.launchCommand.None?
    ensures t.title == NullableText(args.title) && t.objective == NullableText(args.objective)
  {
    var status := TrimOrDefault(args.status, "planned");
    Thread(args.sessionId, args.parent, TrimOrDefault(args.role, "worker"), status,
           NullableText(args.title), NullableText(args.objective), args.worktreeId,
           NullableText(args.guidePath), NullableText(args.agentOverride), None, None, None, None,
           now, if EqualFold(status, "running") then Some(now) else None, None, now)
  }

  /** `CreateThread`: a positive session id is required. */
  method CreateThread(st: Store, args: ThreadCreateArgs, now: int) returns (r: Result<int>)
    requires st.Valid()
    modifies st`threads, st`dbVersion, st`mirrorUpdatedAt
    ensures st.Valid()
    ensures r.Ok? <==> args.sessionId > 0
    ensures r.Err? ==> r.msg == "session_id is required" && st.threads == old(st.threads) && st.NotBumped()
    ensures r.Ok? ==>
      r.value == old(st.threads.lastId) + 1
      && st.threads == old(st.threads).Insert(CreatedThread(args, now)) && st.Bumped(now)
  {
    if args.sessionId <= 0 {
      r := Err("session_id is required");
    } else {
      ghost var threads0 := st.threads;
      var id := st.InsertThread(CreatedThread(args, now));
      st.BumpVersion(now);
      assert st.threads == threads0.Insert(CreatedThread(args, now));
      r := Ok(id);
    }
  }

  /** The optional columns of `UpdateThread`. */
  datatype ThreadUpdateArgs = ThreadUpdateArgs(
    status: Option<string>, tmuxSession: Option<string>, tmuxWindow: Option<string>,
    tmuxPane: Option<string>, launchCommand: Option<string>)

  predicate HasThreadChanges(args: ThreadUpdateArgs) {
    args.status.Some? || args.tmuxSession.Some? || args.tmuxWindow.Some? || args.tmuxPane.Some?
    || args.launchCommand.Some?
  }

  /** `COALESCE(column, now)` when `stamp` holds: a set timestamp is kept. */
  function StampOnce(column: Option<int>, stamp: bool, now: int): (r: Option<int>)
    ensures column.Some? ==> r == column
    ensures column.None? ==> (r.Some? <==> stamp)
    ensures r.Some? && column.None? ==> r.value == now
  {
    if column.None? && stamp then Some(now) else column
  }

  function NullableIfGiven(v: Option<string>, current: Option<string>): (r: Option<string>)
    ensures v.Some? ==> r == NullableText(v.value)
    ensures v.None? ==> r == current
  {
    if v.Some? then NullableText(v.value) else current
  }

  /** The row after a non-empty `UpdateThread` with a non-blank status (if
    * any): the trimmed status, a start stamp when it becomes running and a
    * completion stamp when it becomes terminal, each written only if unset;
    * tmux coordinates and launch command stored as nullable text. */
  function ApplyThreadUpdate(t: Thread, args: ThreadUpdateArgs, now: int): (r: Thread)
    ensures r.sessionId == t.sessionId && r.parent == t.parent && r.role == t.role
    ensures r.createdAt == t.createdAt && r.updatedAt == now
    ensures args.status.Some? ==> r.status == TrimSpace(args.status.value)
    ensures args.status.None? ==> r.status == t.status && r.startedAt == t.startedAt && r.completedAt == t.completedAt
    ensures t.startedAt.Some? ==> r.startedAt == t.startedAt
    ensures t.completedAt.Some? ==> r.completedAt == t.completedAt
    ensures t.startedAt.None? ==>
      (r.startedAt.Some? <==> args.status.Some? && EqualFold(TrimSpace(args.status.value), "running"))
      && (r.startedAt.Some? ==> r.startedAt.value == now)
    ensures t.completedAt.None? ==>
      (r.completedAt.Some? <==> args.status.Some? && IsThreadTerminalStatus(TrimSpace(args.status.value)))
      && (r.completedAt.Some? ==> r.completedAt.value == now)
    ensures r.tmuxSession == NullableIfGiven(args.tmuxSession, t.tmuxSession)
    ensures r.tmuxWindow == NullableIfGiven(args.tmuxWindow, t.tmuxWindow)
    ensures r.tmuxPane == NullableIfGiven(args.tmuxPane, t.tmuxPane)
    ensures r.launchCommand == NullableIfGiven(args.launchCommand, t.launchCommand)
  {
    var status := if args.status.Some? then TrimSpace(args.status.value) else t.status;
    var running := args.status.Some? && EqualFold(status, "running");
    var terminal := args.status.Some? && IsThreadTerminalStatus(status);
    t.(status := status,
       startedAt := StampOnce(t.startedAt, running, now),
       completedAt := StampOnce(t.completedAt, terminal, now),
       tmuxSession := NullableIfGiven(args.tmuxSession, t.tmuxSession),
       tmuxWindow := NullableIfGiven(args.tmuxWindow, t.tmuxWindow),
       tmuxPane := NullableIfGiven(args.tmuxPane, t.tmuxPane),
       launchCommand := NullableIfGiven(args.launchCommand, t.launchCommand),
       updatedAt := now)
  }

  /** A sequence of updates, each with its own clock reading. */
  function ApplyThreadUpdates(t: Thread, updates: seq<(ThreadUpdateArgs, int)>): Thread
    decreases |updates|
  {
    if |updates| == 0 then t
    else ApplyThreadUpdates(ApplyThreadUpdate(t, updates[0].0, updates[0].1), updates[1..])
  }

  /** Write-once timestamps: once a thread has a start or completion time,
    * no later sequence of updates changes it. */
  lemma {:induction false} ThreadStampsWriteOnce(t: Thread, updates: seq<(ThreadUpdateArgs, int)>)
    ensures t.startedAt.Some? ==> ApplyThreadUpdates(t, updates).startedAt == t.startedAt
    ensures t.completedAt.Some? ==> ApplyThreadUpdates(t, updates).completedAt == t.completedAt
    decreases |updates|
  {
    if |updates| > 0 {
      ThreadStampsWriteOnce(ApplyThreadUpdate(t, updates[0].0, updates[0].1), updates[1..]);
    }
  }

  /** `UpdateThread`: a blank status is refused; an update with no fields
    * just reads the thread back; otherwise the row is rewritten, and an
    * unknown id fails with "thread not found". */
  method UpdateThread(st: Store, threadId: int, args: ThreadUpdateArgs, now: int) returns (r: Result<Thread>)
    requires st.Valid()
    modifies st`threads, st`dbVersion, st`mirrorUpdatedAt
    ensures st.Valid()
    ensures args.status.Some? && IsBlank(args.status.value) ==> r == Err("status cannot be empty")
    ensures !HasThreadChanges(args) ==>
      (threadId in old(st.threads.rows) ==> r == Ok(old(st.threads.rows[threadId])))
      && (threadId !in old(st.threads.rows) ==> r == Err(NoRows))
    ensures HasThreadChanges(args) && !(args.status.Some? && IsBlank(args.status.value)) && threadId !in old(st.threads.rows) ==>
      r == Err("thread not found: " + IntToString(threadId))
    ensures (r.Err? || !HasThreadChanges(args)) ==> st.threads == old(st.threads) && st.NotBumped()
    ensures r.Ok? && HasThreadChanges(args) ==>
      threadId in old(st.threads.rows)
      && r.value == ApplyThreadUpdate(old(st.threads.rows[threadId]), args, now)
      && st.threads == old(st.threads).Put(threadId, r.value) && st.Bumped(now)
  {
    if args.status.Some? {
      TrimSpaceBlank(args.status.value);
      if TrimSpace(args.status.value) == "" {
        return Err("status cannot be empty");
      }
    }
    if !HasThreadChanges(args) {
      if threadId in st.threads.rows {
        return Ok(st.threads.rows[threadId]);
      }
      return Err(NoRows);
    }
    if threadId !in st.threads.rows {
      return Err("thread not found: " + IntToString(threadId));
    }
    var updated := ApplyThreadUpdate(st.threads.rows[threadId], args, now);
    st.PutThread(threadId, updated);
    st.BumpVersion(now);
    r := Ok(updated);
  }

  // ---------------------------------------------------------- review jobs

  datatype ReviewJobCreateArgs = ReviewJobCreateArgs(
    mergeRequestId: int, sessionId: int, reviewer: Option<int>, state: string, notesJson: string)

  function CreatedReviewJob(args: ReviewJobCreateArgs, now: int): (j: ReviewJob)
    ensures j.mergeRequestId == args.mergeRequestId && j.sessionId == args.sessionId && j.reviewer == args.reviewer
    ensures (IsBlank(args.state) ==> j.state == "requested") && (!IsBlank(args.state) ==> j.state == TrimSpace(args.state))
    ensures j.notes == NullableJson(args.notesJson) && j.completedAt.None?
  {
    ReviewJob(args.mergeRequestId, args.sessionId, args.reviewer, TrimOrDefault(args.state, "requested"),
              NullableJson(args.notesJson), now, now, None)
  }

  /** `CreateReviewJob`: positive merge-request and session ids are required. */
  method CreateReviewJob(st: Store, args: ReviewJobCreateArgs, now: int) returns (r: Result<int>)
    requires st.Valid()
    modifies st`reviewJobs, st`dbVersion, st`mirrorUpdatedAt
    ensures st.Valid()
    ensures args.mergeRequestId <= 0 ==> r == Err("merge_request_id is required")
    ensures args.mergeRequestId > 0 && args.sessionId <= 0 ==> r == Err("session_id is required")
    ensures r.Ok? <==> args.mergeRequestId > 0 && args.sessionId > 0
    ensures r.Err? ==> st.reviewJobs == old(st.reviewJobs) && st.NotBumped()
    ensures r.Ok? ==>
      r.value == old(st.reviewJobs.lastId) + 1
      && st.reviewJobs == old(st.reviewJobs).Insert(CreatedReviewJob(args, now)) && st.Bumped(now)
  {
    if args.mergeRequestId <= 0 {
      return Err("merge_request_id is required");
    }
    if args.sessionId <= 0 {
      return Err("session_id is required");
    }
    var id := st.InsertReviewJob(CreatedReviewJob(args, now));
    st.BumpVersion(now);
    r := Ok(id);
  }

  datatype ReviewJobUpdateArgs = ReviewJobUpdateArgs(state: Option<string>, reviewer: Option<int>, notesJson: Option<string>)

  /** A review state that closes the job (compared case-insensitively). */
  predicate IsReviewFinal(state: string) {
    EqualFold(state, "completed") || EqualFold(state, "failed") || EqualFold(state, "cancelled")
  }

  /** The row after a non-empty `UpdateReviewJob` with a non-blank state (if
    * any): the trimmed state, a completion stamp written once when the state
    * closes the job, and the given reviewer and notes. */
  function ApplyReviewUpdate(j: ReviewJob, args: ReviewJobUpdateArgs, now: int): (r: ReviewJob)
    ensures r.mergeRequestId == j.mergeRequestId && r.sessionId == j.sessionId && r.createdAt == j.createdAt
    ensures r.updatedAt == now
    ensures args.state.Some? ==> r.state == TrimSpace(args.state.value)
    ensures args.state.None? ==> r.state == j.state && r.completedAt == j.completedAt
    ensures j.completedAt.Some? ==> r.completedAt == j.completedAt
    ensures j.completedAt.None? ==>
      (r.completedAt.Some? <==> args.state.Some? && IsReviewFinal(TrimSpace(args.state.value)))
    ensures args.reviewer.Some? ==> r.reviewer == args.reviewer
    ensures args.reviewer.None? ==> r.reviewer == j.reviewer
    ensures args.notesJson.Some? ==> r.notes == NullableJson(args.notesJson.value)
    ensures args.notesJson.None? ==> r.notes == j.notes
  {
    var state := if args.state.Some? then TrimSpace(args.state.value) else j.state;
    j.(state := state,
       completedAt := StampOnce(j.completedAt, args.state.Some? && IsReviewFinal(state), now),
       reviewer := if args.reviewer.Some? then args.reviewer else j.reviewer,
       notes := if args.notesJson.Some? then NullableJson(args.notesJson.value) else j.notes,
       updatedAt := now)
  }

  function ApplyReviewUpdates(j: ReviewJob, updates: seq<(ReviewJobUpdateArgs, int)>): ReviewJob
    decreases |updates|
  {
    if |updates| == 0 then j
    else ApplyReviewUpdates(ApplyReviewUpdate(j, updates[0].0, updates[0].1), updates[1..])
  }

  /** A review job is completed at most once: later updates keep the first
    * completion time. */
  lemma {:induction false} ReviewCompletedOnce(j: ReviewJob, updates: seq<(ReviewJobUpdateArgs, int)>)
    requires j.completedAt.Some?
    ensures ApplyReviewUpdates(j, updates).completedAt == j.completedAt
    decreases |updates|
  {
    if |updates| > 0 {
      ReviewCompletedOnce(ApplyReviewUpdate(j, updates[0].0, updates[0].1), updates[1..]);
    }
  }

  predicate HasReviewChanges(args: ReviewJobUpdateArgs) {
    args.state.Some? || args.reviewer.Some? || args.notesJson.Some?
  }

  /** `UpdateReviewJob`: a blank state is refused; an update with no fields
    * reads the job back; an unknown id fails with "review job not found". */
  method UpdateReviewJob(st: Store, jobId: int, args: ReviewJobUpdateArgs, now: int) returns (r: Result<ReviewJob>)
    requires st.Valid()
    modifies st`reviewJobs, st`dbVersion, st`mirrorUpdatedAt
    ensures st.Valid()
    ensures args.state.Some? && IsBlank(args.state.value) ==> r == Err("state cannot be empty")
    ensures !HasReviewChanges(args) ==>
      (jobId in old(st.reviewJobs.rows) ==> r == Ok(old(st.reviewJobs.rows[jobId])))
      && (jobId !in old(st.reviewJobs.rows) ==> r == Err(NoRows))
    ensures HasReviewChanges(args) && !(args.state.Some? && IsBlank(args.state.value)) && jobId !in old(st.reviewJobs.rows) ==>
      r == Err("review job not found: " + IntToString(jobId))
    ensures (r.Err? || !HasReviewChanges(args)) ==> st.reviewJobs == old(st.reviewJobs) && st.NotBumped()
    ensures r.Ok? && HasReviewChanges(args) ==>
      jobId in old(st.reviewJobs.rows)
      && r.value == ApplyReviewUpdate(old(st.reviewJobs.rows[jobId]), args, now)
      && st.reviewJobs == old(st.reviewJobs).Put(jobId, r.value) && st.Bumped(now)
  {
    if args.state.Some? {
      TrimSpaceBlank(args.state.value);
      if TrimSpace(args.state.value) == "" {
        return Err("state cannot be empty");
      }
    }
    if !HasReviewChanges(args) {
      if jobId in st.reviewJobs.rows {
        return Ok(st.reviewJobs.rows[jobId]);
      }
      return Err(NoRows);
    }
    if jobId !in st.reviewJobs.rows {
      return Err("review job not found: " + IntToString(jobId));
    }
    var updated := ApplyReviewUpdate(st.reviewJobs.rows[jobId], args, now);
    st.PutReviewJob(jobId, updated);
    st.BumpVersion(now);
    r := Ok(updated);
  }

  /** `GetLatestReviewJobByMergeRequest`: the job with the largest id for the
    * merge request, if there is one. */
  function LatestReviewJob(jobs: Table<ReviewJob>, mergeRequestId: int): (r: Option<int>)
    requires jobs.Valid()
    ensures r.Some? ==> r.value in jobs.rows && jobs.rows[r.value].mergeRequestId == mergeRequestId
    ensures r.Some? ==> forall id :: id in jobs.rows && id > r.value ==> jobs.rows[id].mergeRequestId != mergeRequestId
    ensures r.None? ==> forall id :: id in jobs.rows ==> jobs.rows[id].mergeRequestId != mergeRequestId
  {
    LastId(jobs.rows, (j: ReviewJob) => j.mergeRequestId == mergeRequestId, 1, jobs.lastId)
  }

  /** The job just created for a merge request is its latest. */
  lemma CreatedJobIsLatest(jobs: Table<ReviewJob>, job: ReviewJob)
    requires jobs.Valid()
    ensures jobs.Insert(job).Valid()
    ensures LatestReviewJob(jobs.Insert(job), job.mergeRequestId) == Some(jobs.lastId + 1)
  {
    InsertFresh(jobs, job);
    var after := jobs.Insert(job);
    var latest := LatestReviewJob(after, job.mergeRequestId);
    assert after.rows[jobs.lastId + 1].mergeRequestId == job.mergeRequestId;
  }

  // ------------------------------------------------------- prereq events

  datatype PrereqEventArgs = PrereqEventArgs(sessionId: Option<int>, requirement: string, status: string, detail: string)

  /** `RecordRuntimePrereqEvent`: requirement and status are trimmed and must
    * be non-blank; the detail is nullable text. */
  method RecordRuntimePrereqEvent(st: Store, args: PrereqEventArgs, now: int) returns (r: Result<int>)
    requires st.Valid()
    modifies st`prereqEvents, st`dbVersion, st`mirrorUpdatedAt
    ensures st.Valid()
    ensures IsBlank(args.requirement) ==> r == Err("requirement is required")
    ensures !IsBlank(args.requirement) && IsBlank(args.status) ==> r == Err("status is required")
    ensures r.Ok? <==> !IsBlank(args.requirement) && !IsBlank(args.status)
    ensures r.Err? ==> st.prereqEvents == old(st.prereqEvents) && st.NotBumped()
    ensures r.Ok? ==>
      r.value == old(st.prereqEvents.lastId) + 1
      && st.prereqEvents == old(st.prereqEvents).Insert(
           PrereqEvent(args.sessionId, TrimSpace(args.requirement), TrimSpace(args.status), NullableText(args.detail), now))
      && st.Bumped(now)
  {
    TrimSpaceBlank(args.requirement);
    TrimSpaceBlank(args.status);
    if TrimSpace(args.requirement) == "" {
      return Err("requirement is required");
    }
    if TrimSpace(args.status) == "" {
      return Err("status is required");
    }
    var id := st.InsertPrereqEvent(
      PrereqEvent(args.sessionId, TrimSpace(args.requirement), TrimSpace(args.status), NullableText(args.detail), now));
    st.BumpVersion(now);
    r := Ok(id);
  }
}
