/** The orchestrator service: the worktree-or-shared decision, the worktree
  * path and status rule of `worktree.create`, and the dispatch rules of
  * `Handle` (which methods exist, which wait for the delegation
  * acknowledgement, rollup approval, the main-merge auto-review default and
  * the mirror refresh). */
module Service {
  import opened Text
  import opened ScopePaths
  import opened StoreSchema
  import opened CoreStore
  import opened SessionStore
  import opened PlanningStore
  import opened DelegationFlow

  const DocMirrorManagerRole := "doc-mirror-manager"
  const DefaultMirrorPath := ".codex-orch/mirror/status.md"

  // ------------------------------------------------------ decideWorktree

  datatype DecisionInput = DecisionInput(
    changedFiles: int, estimateMinutes: int, risk: int, parallelWorkers: int, conflictingPaths: int)

  datatype Decision = Decision(mode: string, score: int, reasons: seq<Reason>)

  /** The estimate's share of the score: whole quarter hours, rounded up. */
  function EstimateScore(minutes: int): (s: int)
    requires minutes > 0
    ensures s >= 1
    ensures 15 * (s - 1) < minutes <= 15 * s
  {
    (minutes + 14) / 15
  }

  /** A term that counts only when its input is positive. */
  function IfPositive(input: int, term: int): int {
    if input > 0 then term else 0
  }

  /** The decision score: changed files, the rounded-up quarter hours of the
    * estimate, three per risk point and two per parallel worker and per
    * conflicting path, each counted only when its input is positive. */
  function WorktreeScore(d: DecisionInput): int {
    IfPositive(d.changedFiles, d.changedFiles)
    + (if d.estimateMinutes > 0 then EstimateScore(d.estimateMinutes) else 0)
    + IfPositive(d.risk, 3 * d.risk)
    + IfPositive(d.parallelWorkers, 2 * d.parallelWorkers)
    + IfPositive(d.conflictingPaths, 2 * d.conflictingPaths)
  }

  /** The decision inputs, in the order the service considers them. */
  datatype Field = ChangedFiles | EstimateMinutes | Risk | ParallelWorkers | ConflictingPaths

  /** The JSON name of an input, which starts its reason line. */
  function FieldName(f: Field): string {
    match f
    case ChangedFiles => "changed_files"
    case EstimateMinutes => "estimate_minutes"
    case Risk => "risk"
    case ParallelWorkers => "parallel_workers"
    case ConflictingPaths => "conflicting_paths"
  }

  function KeyIf(input: int, key: Field): seq<Field> {
    if input > 0 then [key] else []
  }

  /** The positive inputs, in field order: one reason each. */
  function ReasonKeys(d: DecisionInput): seq<Field> {
    KeyIf(d.changedFiles, ChangedFiles) + KeyIf(d.estimateMinutes, EstimateMinutes)
    + KeyIf(d.risk, Risk) + KeyIf(d.parallelWorkers, ParallelWorkers)
    + KeyIf(d.conflictingPaths, ConflictingPaths)
  }

  /** One entry of `reasons`: the input's name, its value and the points it
    * adds; `ReasonText` is the line the service prints for it. */
  datatype Reason = Reason(key: Field, value: int, points: int)

  /** `changed_files=%d`, and `<key>=%d(+%d)` for the other inputs. */
  function ReasonText(r: Reason): string {
    FieldName(r.key) + "=" + IntToString(r.value)
    + (if r.key == ChangedFiles then "" else "(+" + IntToString(r.points) + ")")
  }

  function SumPoints(reasons: seq<Reason>): int {
    if reasons == [] then 0 else SumPoints(reasons[..|reasons| - 1]) + reasons[|reasons| - 1].points
  }

  /** The input names of the reasons, in order. */
  function Keys(reasons: seq<Reason>): (keys: seq<Field>)
    ensures |keys| == |reasons|
  {
    if reasons == [] then [] else Keys(reasons[..|reasons| - 1]) + [reasons[|reasons| - 1].key]
  }

  /** Every reason is about a positive input and adds points. */
  predicate AllPositive(reasons: seq<Reason>) {
    forall i :: 0 <= i < |reasons| ==> reasons[i].value > 0 && reasons[i].points > 0
  }

  lemma AppendReason(reasons: seq<Reason>, r: Reason)
    ensures Keys(reasons + [r]) == Keys(reasons) + [r.key]
    ensures SumPoints(reasons + [r]) == SumPoints(reasons) + r.points
    ensures AllPositive(reasons) && r.value > 0 && r.points > 0 ==> AllPositive(reasons + [r])
  {
    assert (reasons + [r])[..|reasons|] == reasons;
  }

  function ModeFor(score: int): string {
    if score >= 12 then "worktree" else "shared"
  }

  function EstimatePoints(minutes: int): int {
    if minutes > 0 then EstimateScore(minutes) else 0
  }

  function ReasonIf(input: int, f: Field, points: int): seq<Reason> {
    if input > 0 then [Reason(f, input, points)] else []
  }

  /** The reasons of a decision: one per positive input, in field order, each
    * with the points its input adds. */
  function Reasons(d: DecisionInput): seq<Reason> {
    ReasonIf(d.changedFiles, ChangedFiles, d.changedFiles)
    + ReasonIf(d.estimateMinutes, EstimateMinutes, EstimatePoints(d.estimateMinutes))
    + ReasonIf(d.risk, Risk, 3 * d.risk)
    + ReasonIf(d.parallelWorkers, ParallelWorkers, 2 * d.parallelWorkers)
    + ReasonIf(d.conflictingPaths, ConflictingPaths, 2 * d.conflictingPaths)
  }

  lemma AppendReasonIf(reasons: seq<Reason>, input: int, f: Field, points: int)
    requires AllPositive(reasons) && (input > 0 ==> points > 0)
    ensures Keys(reasons + ReasonIf(input, f, points)) == Keys(reasons) + KeyIf(input, f)
    ensures SumPoints(reasons + ReasonIf(input, f, points)) == SumPoints(reasons) + IfPositive(input, points)
    ensures AllPositive(reasons + ReasonIf(input, f, points))
  {
    if input > 0 {
      AppendReason(reasons, Reason(f, input, points));
    } else {
      assert reasons + ReasonIf(input, f, points) == reasons;
    }
  }

  /** The reasons name exactly the positive inputs, in order, and their
    * points add up to the score. */
  lemma ReasonsAccountForScore(d: DecisionInput)
    ensures Keys(Reasons(d)) == ReasonKeys(d)
    ensures SumPoints(Reasons(d)) == WorktreeScore(d)
    ensures AllPositive(Reasons(d))
  {
    var r0: seq<Reason> := [];
    AppendReasonIf(r0, d.changedFiles, ChangedFiles, d.changedFiles);
    var r1 := r0 + ReasonIf(d.changedFiles, ChangedFiles, d.changedFiles);
    AppendReasonIf(r1, d.estimateMinutes, EstimateMinutes, EstimatePoints(d.estimateMinutes));
    var r2 := r1 + ReasonIf(d.estimateMinutes, EstimateMinutes, EstimatePoints(d.estimateMinutes));
    AppendReasonIf(r2, d.risk, Risk, 3 * d.risk);
    var r3 := r2 + ReasonIf(d.risk, Risk, 3 * d.risk);
    AppendReasonIf(r3, d.parallelWorkers, ParallelWorkers, 2 * d.parallelWorkers);
    var r4 := r3 + ReasonIf(d.parallelWorkers, ParallelWorkers, 2 * d.parallelWorkers);
    AppendReasonIf(r4, d.conflictingPaths, ConflictingPaths, 2 * d.conflictingPaths);
    assert r0 + ReasonIf(d.changedFiles, ChangedFiles, d.changedFiles) == ReasonIf(d.changedFiles, ChangedFiles, d.changedFiles);
    assert [] + KeyIf(d.changedFiles, ChangedFiles) == KeyIf(d.changedFiles, ChangedFiles);
  }

  /** One step of `decideWorktree`: a positive input adds its points to
    * the score and its reason to the list; any other input changes nothing. */
  method Tally(score: int, reasons: seq<Reason>, input: int, f: Field, points: int)
    returns (newScore: int, newReasons: seq<Reason>)
    ensures newScore == score + IfPositive(input, points)
    ensures newReasons == reasons + ReasonIf(input, f, points)
  {
    newScore, newReasons := score, reasons;
    if input > 0 {
      newScore := newScore + points;
      newReasons := newReasons + [Reason(f, input, points)];
    }
  }

  /** `decideWorktree`: adds up the score term by term, appending one reason
    * per positive input, and picks a worktree from a score of 12 on. */
  method DecideWorktree(d: DecisionInput) returns (r: Decision)
    ensures r.score == WorktreeScore(d) && r.reasons == Reasons(d)
    ensures r.mode == "worktree" <==> r.score >= 12
    ensures r.mode == "shared" <==> r.score < 12
    ensures Keys(r.reasons) == ReasonKeys(d) && SumPoints(r.reasons) == r.score
  {
    var score := 0;
    var reasons: seq<Reason> := [];
    score, reasons := Tally(score, reasons, d.changedFiles, ChangedFiles, d.changedFiles);
    assert reasons == ReasonIf(d.changedFiles, ChangedFiles, d.changedFiles);
    score, reasons := Tally(score, reasons, d.estimateMinutes, EstimateMinutes, EstimatePoints(d.estimateMinutes));
    score, reasons := Tally(score, reasons, d.risk, Risk, 3 * d.risk);
    score, reasons := Tally(score, reasons, d.parallelWorkers, ParallelWorkers, 2 * d.parallelWorkers);
    score, reasons := Tally(score, reasons, d.conflictingPaths, ConflictingPaths, 2 * d.conflictingPaths);
    var mode := "shared";
    if score >= 12 {
      mode := "worktree";
    }
    r := Decision(mode, score, reasons);
    ReasonsAccountForScore(d);
  }

  /** More of every input never lowers the score, so it never turns a
    * worktree decision back into a shared one. */
  lemma ScoreMonotone(a: DecisionInput, b: DecisionInput)
    requires a.changedFiles <= b.changedFiles && a.estimateMinutes <= b.estimateMinutes
    requires a.risk <= b.risk && a.parallelWorkers <= b.parallelWorkers
    requires a.conflictingPaths <= b.conflictingPaths
    ensures WorktreeScore(a) <= WorktreeScore(b)
    ensures ModeFor(WorktreeScore(a)) == "worktree" ==> ModeFor(WorktreeScore(b)) == "worktree"
  {
    if a.estimateMinutes > 0 {
      var sa := EstimateScore(a.estimateMinutes);
      var sb := EstimateScore(b.estimateMinutes);
      assert 15 * (sa - 1) < 15 * sb;
    }
  }

  /** The two decisions the service tests pin down: a small change stays
    * shared at score 10, a large one gets a worktree at score 24. */
  lemma DecisionExamples()
    ensures WorktreeScore(DecisionInput(2, 15, 1, 1, 1)) == 10
    ensures ModeFor(WorktreeScore(DecisionInput(2, 15, 1, 1, 1))) == "shared"
    ensures WorktreeScore(DecisionInput(6, 60, 2, 2, 2)) == 24
    ensures ModeFor(WorktreeScore(DecisionInput(6, 60, 2, 2, 2))) == "worktree"
  {
  }

  // ---------------------------------------------------- sanitizeForPath

  function DashFor(c: char): char {
    if c == '/' || c == ' ' then '-' else c
  }

  /** Every "/" and " " turned into "-", character by character. */
  function DashSeparators(t: string): (r: string)
    ensures |r| == |t| && forall i :: 0 <= i < |r| ==> r[i] == DashFor(t[i])
  {
    if t == [] then [] else [DashFor(t[0])] + DashSeparators(t[1..])
  }

  /** Dashing leaves no separator behind and keeps non-space ends. */
  lemma DashSeparatorsClean(t: string)
    requires t != [] && !IsSpace(t[0]) && !IsSpace(t[|t| - 1])
    ensures var r := DashSeparators(t);
      '/' !in r && ' ' !in r && !IsSpace(r[0]) && !IsSpace(r[|r| - 1])
  {
    var r := DashSeparators(t);
    forall i | 0 <= i < |r|
      ensures r[i] != '/' && r[i] != ' '
    {
      assert r[i] == DashFor(t[i]);
    }
    assert r[0] == DashFor(t[0]) && r[|r| - 1] == DashFor(t[|t| - 1]);
  }

  /** `sanitizeForPath`: blank input becomes "worktree"; otherwise the
    * trimmed value with every "/" and " " turned into "-". */
  function SanitizeForPath(value: string): (r: string)
    ensures IsBlank(value) ==> r == "worktree"
    ensures !IsBlank(value) ==>
      |r| == |TrimSpace(value)|
      && forall i :: 0 <= i < |r| ==> r[i] == DashFor(TrimSpace(value)[i])
    ensures r != "" && '/' !in r && ' ' !in r
    ensures !IsSpace(r[0]) && !IsSpace(r[|r| - 1])
  {
    var trimmed := TrimSpace(value);
    TrimSpaceBlank(value);
    if trimmed == "" then
      FallbackNameClean();
      "worktree"
    else
      DashSeparatorsClean(trimmed);
      DashSeparators(trimmed)
  }

  /** A name with no separator and no surrounding space sanitizes to
    * itself. */
  lemma SanitizeClean(r: string)
    requires r != [] && '/' !in r && ' ' !in r && !IsSpace(r[0]) && !IsSpace(r[|r| - 1])
    ensures SanitizeForPath(r) == r
  {
    TrimSpaceUnchanged(r);
    TrimSpaceBlank(r);
    var again := SanitizeForPath(r);
    forall i | 0 <= i < |r|
      ensures again[i] == r[i]
    {
      assert r[i] != '/' && r[i] != ' ';
    }
  }

  lemma FallbackNameClean()
    ensures '/' !in "worktree" && ' ' !in "worktree" && !IsSpace("worktree"[0]) && !IsSpace("worktree"[7])
  {
    var w := "worktree";
    assert w[0] == 'w' && w[7] == 'e';
    assert forall i :: 0 <= i < |w| ==> w[i] != '/' && w[i] != ' ';
  }

  /** A sanitized name is its own sanitized form. */
  lemma SanitizeIdempotent(value: string)
    ensures SanitizeForPath(SanitizeForPath(value)) == SanitizeForPath(value)
  {
    var r := SanitizeForPath(value);
    SanitizeClean(r);
    assert SanitizeForPath(r) == r;
  }

  // ------------------------------------------------------ createWorktree

  datatype WorktreeCreateInput = WorktreeCreateInput(
    taskId: int, branch: string, path: string, baseRef: string, createOnDisk: bool)

  /** Where a worktree goes when no path is given. */
  function DefaultWorktreePath(repoPath: string, branch: string): string {
    FilepathJoin([repoPath, ".codex-orch", "worktrees", SanitizeForPath(branch)])
  }

  /** The path `createWorktree` records: the given one unless it is blank. */
  function WorktreePath(repoPath: string, input: WorktreeCreateInput): (r: string)
    ensures !IsBlank(input.path) ==> r == input.path
    ensures IsBlank(input.path) ==> r == DefaultWorktreePath(repoPath, input.branch)
  {
    if IsBlank(input.path) then DefaultWorktreePath(repoPath, input.branch) else input.path
  }

  /** The default path of an absolute repository ends in the sanitized
    * branch name (unless that name is "." or ".."). */
  lemma DefaultPathEndsInBranch(repoPath: string, branch: string)
    requires repoPath != [] && repoPath[0] == '/'
    requires SanitizeForPath(branch) != "." && SanitizeForPath(branch) != ".."
    ensures PathBase(DefaultWorktreePath(repoPath, branch)) == SanitizeForPath(branch)
  {
    WorktreeDirBase(repoPath, SanitizeForPath(branch));
  }

  /** The commit `git worktree add` starts from: the given ref, or HEAD. */
  function GitBaseRef(baseRef: string): (r: string)
    ensures r != ""
  {
    if IsBlank(baseRef) then "HEAD" else baseRef
  }

  /** `runGitWorktreeAdd`: a blank branch is refused before git runs;
    * otherwise the outcome is git's, given as `gitAdd(branch, path, base)`
    * (an error message, parent directory creation included). */
  function RunGitWorktreeAdd(path: string, branch: string, baseRef: string,
                             gitAdd: (string, string, string) -> Option<string>): (r: Option<string>)
    ensures IsBlank(branch) ==> r == Some("branch is required when create_on_disk=true")
    ensures !IsBlank(branch) ==> r == gitAdd(branch, path, GitBaseRef(baseRef))
  {
    if IsBlank(branch) then Some("branch is required when create_on_disk=true")
    else gitAdd(branch, path, GitBaseRef(baseRef))
  }

  /** The record `createWorktree` asks the store for: "active" once the
    * checkout exists on disk, "planned" otherwise. */
  function CreateArgs(repoPath: string, input: WorktreeCreateInput): (a: WorktreeCreateArgs)
    ensures a.path == WorktreePath(repoPath, input) && a.branch == input.branch
    ensures a.status == (if input.createOnDisk then "active" else "planned")
  {
    WorktreeCreateArgs(input.taskId, WorktreePath(repoPath, input), input.branch,
                       if input.createOnDisk then "active" else "planned", "", None, None, "")
  }

  /** `createWorktree`. */
  method CreateWorktree(st: Store, repoPath: string, input: WorktreeCreateInput,
                        gitAdd: (string, string, string) -> Option<string>, now: int)
    returns (r: Result<int>)
    requires st.Valid()
    modifies st`worktrees, st`dbVersion, st`mirrorUpdatedAt
    ensures st.Valid()
    ensures (input.createOnDisk
             && RunGitWorktreeAdd(WorktreePath(repoPath, input), input.branch, input.baseRef, gitAdd).Some?) ==>
      r == Err(RunGitWorktreeAdd(WorktreePath(repoPath, input), input.branch, input.baseRef, gitAdd).value)
    ensures r.Ok? <==>
      (!input.createOnDisk || RunGitWorktreeAdd(WorktreePath(repoPath, input), input.branch, input.baseRef, gitAdd).None?)
      && !IsBlank(WorktreePath(repoPath, input)) && !IsBlank(input.branch)
    ensures r.Err? ==> st.worktrees == old(st.worktrees) && st.NotBumped()
    ensures r.Ok? ==>
      st.worktrees == old(st.worktrees).Insert(WorktreeRow(CreateArgs(repoPath, input), now)) && st.Bumped(now)
      && r.value in st.worktrees.rows
      && st.worktrees.rows[r.value].path == WorktreePath(repoPath, input)
      && (st.worktrees.rows[r.value].status == "active" <==> input.createOnDisk)
  {
    var path := WorktreePath(repoPath, input);
    if input.createOnDisk {
      var failure := RunGitWorktreeAdd(path, input.branch, input.baseRef, gitAdd);
      if failure.Some? {
        return Err(failure.value);
      }
    }
    var args := CreateArgs(repoPath, input);
    assert !IsBlank("planned") && !IsBlank("active") by {
      assert "planned"[0] == 'p' && "active"[0] == 'a';
    }
    r := CreateWorktreeRecord(st, args, now);
  }

  // ------------------------------------------------------------- Handle

  /** The methods `Handle` dispatches; anything else is unsupported. */
  const HandledMethods: set<string> := {
    "workspace.init", "session.open", "session.heartbeat", "session.close", "session.context",
    "runtime.tmux.ensure", "runtime.bundle.info", "orchestration.delegate",
    "task.create", "task.list", "task.get",
    "graph.node.create", "graph.node.list", "graph.edge.create", "graph.checklist.upsert",
    "graph.snapshot.create",
    "plan.bootstrap", "plan.slice.generate", "plan.slice.replan", "plan.rollup.preview",
    "plan.rollup.submit", "plan.rollup.approve", "plan.rollup.reject",
    "scheduler.decide_worktree",
    "worktree.create", "worktree.list", "worktree.spawn", "worktree.merge_to_parent",
    "thread.root.ensure", "thread.root.handoff_ack", "thread.child.spawn", "thread.child.list",
    "thread.child.interrupt", "thread.child.stop", "thread.attach_info",
    "lock.acquire", "lock.heartbeat", "lock.release",
    "case.begin", "step.check", "case.complete",
    "resume.next", "resume.candidates.list", "resume.candidates.attach",
    "work.current_ref", "work.current_ref.ack",
    "merge.request", "merge.review_context", "merge.review.request_auto", "merge.review.thread_status",
    "merge.main.request", "merge.main.next", "merge.main.status",
    "merge.main.acquire_lock", "merge.main.release_lock",
    "mirror.status", "mirror.refresh"
  }

  /** The methods that first check the session's delegation acknowledgement. */
  const GatedMethods: set<string> := {
    "thread.child.spawn", "case.begin", "step.check", "case.complete",
    "work.current_ref", "work.current_ref.ack", "merge.review.request_auto",
    "merge.main.request", "merge.main.acquire_lock", "merge.main.release_lock"
  }

  /** How `Handle` refuses a method before any store work: unknown methods
    * are unsupported, and gated methods wait for the root thread's handoff
    * acknowledgement of a delegated session. */
  function HandleRefusal(sessions: Table<Session>, rpcMethod: string, sessionId: int): (r: Option<string>)
    ensures rpcMethod !in HandledMethods ==> r == Some("unsupported method: " + rpcMethod)
    ensures rpcMethod in HandledMethods && rpcMethod !in GatedMethods ==> r.None?
    ensures rpcMethod in GatedMethods ==> r == RequireDelegationAck(sessions, sessionId, rpcMethod)
  {
    if rpcMethod !in HandledMethods then Some("unsupported method: " + rpcMethod)
    else if rpcMethod in GatedMethods then RequireDelegationAck(sessions, sessionId, rpcMethod)
    else None
  }

  /** Every gated method is a handled one, so a delegated session is refused
    * with the delegation message and never with "unsupported method". */
  lemma GatedMethodsHandled(sessions: Table<Session>, rpcMethod: string, sessionId: int)
    requires rpcMethod in GatedMethods
    requires sessionId > 0 && sessionId in sessions.rows && AwaitsAck(sessions.rows[sessionId])
    ensures HandleRefusal(sessions, rpcMethod, sessionId)
      == Some(Blocked(sessionId, sessions.rows[sessionId].delegationRootThread, rpcMethod))
  {
  }

  /** `plan.rollup.approve`: the node becomes approved and done. */
  method ApproveRollup(st: Store, nodeId: int, now: int) returns (r: Result<GraphNode>)
    requires st.Valid()
    modifies st`nodes, st`dbVersion, st`mirrorUpdatedAt
    ensures st.Valid()
    ensures r.Ok? <==> nodeId in old(st.nodes.rows)
    ensures r.Err? ==> r.msg == NoRows && st.nodes == old(st.nodes) && st.NotBumped()
    ensures r.Ok? ==>
      r.value.approvalState == "approved" && r.value.status == "done"
      && r.value == WithApproval(old(st.nodes.rows[nodeId]), "approved", "done", now)
      && st.nodes == old(st.nodes).Put(nodeId, r.value) && st.Bumped(now)
  {
    assert !IsBlank("approved") && !IsBlank("done") by {
      assert "approved"[0] == 'a' && "done"[0] == 'd';
    }
    r := UpdateGraphNodeApprovalState(st, nodeId, "approved", "done", now);
  }

  /** `plan.rollup.reject`: the node becomes rejected and blocked. */
  method RejectRollup(st: Store, nodeId: int, now: int) returns (r: Result<GraphNode>)
    requires st.Valid()
    modifies st`nodes, st`dbVersion, st`mirrorUpdatedAt
    ensures st.Valid()
    ensures r.Ok? <==> nodeId in old(st.nodes.rows)
    ensures r.Err? ==> r.msg == NoRows && st.nodes == old(st.nodes) && st.NotBumped()
    ensures r.Ok? ==>
      r.value.approvalState == "rejected" && r.value.status == "blocked"
      && r.value == WithApproval(old(st.nodes.rows[nodeId]), "rejected", "blocked", now)
      && st.nodes == old(st.nodes).Put(nodeId, r.value) && st.Bumped(now)
  {
    assert !IsBlank("rejected") && !IsBlank("blocked") by {
      assert "rejected"[0] == 'r' && "blocked"[0] == 'b';
    }
    r := UpdateGraphNodeApprovalState(st, nodeId, "rejected", "blocked", now);
  }

  // ------------------------------------------------- merge.main.request

  const AutoReviewNeedsId := "merge_request_id is required when auto_review=true"

  /** Whether `merge.main.request` dispatches a review: by default exactly
    * when a merge request id is given, unless `auto_review` says otherwise;
    * asking for one without a positive id is an error. */
  function AutoReviewDecision(mergeRequestId: Option<int>, autoReview: Option<bool>): (r: Result<bool>)
    ensures r == Ok(true) ==> mergeRequestId.Some? && mergeRequestId.value > 0
    ensures autoReview == Some(false) ==> r == Ok(false)
    ensures autoReview.None? && mergeRequestId.None? ==> r == Ok(false)
    ensures (autoReview == Some(true) || (autoReview.None? && mergeRequestId.Some?)) ==>
      (r.Ok? <==> mergeRequestId.Some? && mergeRequestId.value > 0)
      && (r.Ok? ==> r.value)
      && (r.Err? ==> r.msg == AutoReviewNeedsId)
  {
    var requested := if autoReview.Some? then autoReview.value else mergeRequestId.Some?;
    if !requested then Ok(false)
    else if mergeRequestId.None? || mergeRequestId.value <= 0 then Err(AutoReviewNeedsId)
    else Ok(true)
  }

  datatype MainMergeInput = MainMergeInput(
    sessionId: int, fromWorktree: int, targetBranch: string,
    mergeRequestId: Option<int>, autoReview: Option<bool>)

  /** The queued request's id and whether a review dispatch follows. */
  datatype MainMergeOutcome = MainMergeOutcome(requestId: int, dispatchReview: bool)

  function EnqueueArgs(input: MainMergeInput): MergeRequestArgs {
    MergeRequestArgs(input.sessionId, input.fromWorktree, input.targetBranch)
  }

  /** The store accepts the request (positive ids, no unmerged children). */
  predicate EnqueueAccepted(worktrees: Table<Worktree>, input: MainMergeInput) {
    input.sessionId > 0 && input.fromWorktree > 0 && UnmergedChildren(worktrees, input.fromWorktree) == 0
  }

  function QueuedRequest(input: MainMergeInput, now: int): QueueItem {
    QueueItem(input.sessionId, input.fromWorktree, TrimOrDefault(input.targetBranch, "main"), "queued", now, now)
  }

  /** `merge.main.request` as written: the auto-review check runs after the
    * request is queued, so a refused auto-review leaves the request queued
    * while the caller gets an error. The review dispatch itself is not
    * modelled; its failure only annotates the response. */
  method MergeMainRequest(st: Store, input: MainMergeInput, now: int) returns (r: Result<MainMergeOutcome>)
    requires st.Valid()
    modifies st`queue, st`dbVersion, st`mirrorUpdatedAt
    ensures st.Valid() && st.sessions == old(st.sessions)
    ensures RequireDelegationAck(st.sessions, input.sessionId, "merge.main.request").Some? ==>
      r == Err(RequireDelegationAck(st.sessions, input.sessionId, "merge.main.request").value)
      && st.queue == old(st.queue) && st.NotBumped()
    ensures RequireDelegationAck(st.sessions, input.sessionId, "merge.main.request").None? ==>
      QueuedThenReviewed(old(st.queue), st.queue, old(st.worktrees), input, now, r)
    ensures !EnqueueAccepted(old(st.worktrees), input) ==> r.Err? && st.queue == old(st.queue) && st.NotBumped()
  {
    var blocked := RequireDelegationAck(st.sessions, input.sessionId, "merge.main.request");
    if blocked.Some? {
      return Err(blocked.value);
    }
    r := EnqueueThenReview(st, input, now);
  }

  /** What the enqueue-then-review order leaves behind: a refused enqueue
    * changes nothing; an accepted one stays queued whatever the auto-review
    * check says, and the call succeeds exactly when that check does. */
  predicate QueuedThenReviewed(before: Table<QueueItem>, after: Table<QueueItem>, worktrees: Table<Worktree>,
                               input: MainMergeInput, now: int, r: Result<MainMergeOutcome>)
  {
    if !EnqueueAccepted(worktrees, input) then r.Err? && after == before
    else
      after == before.Insert(QueuedRequest(input, now))
      && (r.Ok? <==> AutoReviewDecision(input.mergeRequestId, input.autoReview).Ok?)
      && (r.Ok? ==> r.value == MainMergeOutcome(before.lastId + 1,
                                                 AutoReviewDecision(input.mergeRequestId, input.autoReview).value))
      && (r.Err? ==> r.msg == AutoReviewNeedsId)
  }

  /** The part of `merge.main.request` after the delegation gate. */
  method EnqueueThenReview(st: Store, input: MainMergeInput, now: int) returns (r: Result<MainMergeOutcome>)
    requires st.Valid()
    modifies st`queue, st`dbVersion, st`mirrorUpdatedAt
    ensures st.Valid() && st.sessions == old(st.sessions)
    ensures QueuedThenReviewed(old(st.queue), st.queue, old(st.worktrees), input, now, r)
    ensures EnqueueAccepted(old(st.worktrees), input) ==> st.Bumped(now)
    ensures !EnqueueAccepted(old(st.worktrees), input) ==> st.NotBumped()
  {
    var enqueued := EnqueueMainMergeRequest(st, EnqueueArgs(input), now);
    if enqueued.Err? {
      return Err(enqueued.msg);
    }
    var review := AutoReviewDecision(input.mergeRequestId, input.autoReview);
    if review.Err? {
      return Err(review.msg);
    }
    r := Ok(MainMergeOutcome(enqueued.value, review.value));
  }

  /** The input that shows the gap: auto-review asked for without an id is
    * refused, although the store accepts the request itself. */
  lemma AutoReviewWithoutIdRefused()
    ensures AutoReviewDecision(None, Some(true)) == Err(AutoReviewNeedsId)
    ensures AutoReviewDecision(Some(0), None) == Err(AutoReviewNeedsId)
  {
  }

  /** `merge.main.request` with the auto-review check moved in front of the
    * enqueue: a refused call leaves the queue as it was. */
  method MergeMainRequestChecked(st: Store, input: MainMergeInput, now: int) returns (r: Result<MainMergeOutcome>)
    requires st.Valid()
    modifies st`queue, st`dbVersion, st`mirrorUpdatedAt
    ensures st.Valid()
    ensures r.Err? ==> st.queue == old(st.queue) && st.NotBumped()
    ensures r.Ok? <==>
      RequireDelegationAck(st.sessions, input.sessionId, "merge.main.request").None?
      && AutoReviewDecision(input.mergeRequestId, input.autoReview).Ok?
      && EnqueueAccepted(old(st.worktrees), input)
    ensures r.Ok? ==>
      st.queue == old(st.queue).Insert(QueuedRequest(input, now)) && st.Bumped(now)
      && r.value == MainMergeOutcome(old(st.queue.lastId) + 1,
                                     AutoReviewDecision(input.mergeRequestId, input.autoReview).value)
  {
    var blocked := RequireDelegationAck(st.sessions, input.sessionId, "merge.main.request");
    if blocked.Some? {
      return Err(blocked.value);
    }
    var review := AutoReviewDecision(input.mergeRequestId, input.autoReview);
    if review.Err? {
      return Err(review.msg);
    }
    var enqueued := EnqueueMainMergeRequest(st, EnqueueArgs(input), now);
    if enqueued.Err? {
      return Err(enqueued.msg);
    }
    r := Ok(MainMergeOutcome(enqueued.value, review.value));
  }

  // ------------------------------------------------------ mirror.refresh

  /** The file a refresh writes: the trimmed target if one is given, else
    * the path of the previous refresh, else the default under the
    * repository. */
  function MirrorTarget(targetPath: string, mdPath: string, repoPath: string): (r: string)
    ensures !IsBlank(targetPath) ==> r == TrimSpace(targetPath)
    ensures IsBlank(targetPath) && !IsBlank(mdPath) ==> r == mdPath
    ensures IsBlank(targetPath) && IsBlank(mdPath) ==> r == FilepathJoin([repoPath, DefaultMirrorPath])
    ensures r != ""
  {
    TrimSpaceBlank(targetPath);
    if TrimSpace(targetPath) != "" then TrimSpace(targetPath)
    else if !IsBlank(mdPath) then mdPath
    else FilepathJoin([repoPath, DefaultMirrorPath])
  }

  /** Refreshes without a target keep writing where the last one wrote. */
  lemma MirrorTargetSticky(first: string, mdPath: string, repoPath: string, next: string)
    requires IsBlank(next) && !IsBlank(MirrorTarget(first, mdPath, repoPath))
    ensures MirrorTarget(next, MirrorTarget(first, mdPath, repoPath), repoPath) == MirrorTarget(first, mdPath, repoPath)
  {
  }

  datatype RefreshOutcome = RefreshOutcome(outdatedBefore: bool, status: MirrorStatus, path: string)

  const MirrorRoleRefusal := "mirror.refresh is restricted to role=" + DocMirrorManagerRole

  /** `refreshMirror`: only the doc-mirror-manager role may refresh. Listing
    * the active locks for the markdown commits the expiry of overdue ones;
    * `writeMirror(path)` is the outcome of writing the file. */
  method RefreshMirror(st: Store, requesterRole: string, targetPath: string, repoPath: string,
                       writeMirror: string -> Option<string>, now: int)
    returns (r: Result<RefreshOutcome>)
    requires st.Valid()
    modifies st`locks, st`mdVersion, st`mdPath, st`mirrorUpdatedAt
    ensures st.Valid()
    ensures TrimSpace(requesterRole) != DocMirrorManagerRole ==>
      r == Err(MirrorRoleRefusal) && st.locks == old(st.locks)
    ensures r.Ok? <==>
      TrimSpace(requesterRole) == DocMirrorManagerRole
      && writeMirror(MirrorTarget(targetPath, old(st.mdPath), repoPath)).None?
    ensures TrimSpace(requesterRole) == DocMirrorManagerRole ==>
      st.locks == Table(ExpireLocks(old(st.locks.rows), now), old(st.locks.lastId))
    ensures r.Err? ==> st.mdVersion == old(st.mdVersion) && st.mdPath == old(st.mdPath)
    ensures r.Ok? ==>
      r.value.path == MirrorTarget(targetPath, old(st.mdPath), repoPath) && st.mdPath == r.value.path
      && r.value.outdatedBefore == (old(st.dbVersion) != old(st.mdVersion))
      && st.mdVersion == st.dbVersion == old(st.dbVersion)
      && r.value.status == GetMirrorStatus(st) && !r.value.status.outdated
  {
    if TrimSpace(requesterRole) != DocMirrorManagerRole {
      return Err(MirrorRoleRefusal);
    }
    var before := GetMirrorStatus(st);
    var target := MirrorTarget(targetPath, before.mdPath, repoPath);
    var activeLocks := ListActiveLocks(st, now);
    var failure := writeMirror(target);
    if failure.Some? {
      return Err(failure.value);
    }
    var after := MarkMirrorRefreshed(st, target, now);
    r := Ok(RefreshOutcome(before.outdated, after, target));
  }
}
