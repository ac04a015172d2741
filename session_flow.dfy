/** Session and worktree flows: the intent rule of `session.open`, the
  * bounded candidate search that allocates a session-root or child worktree,
  * the recognition of git's "already there" errors, merging a child back
  * into its parent, and the current-ref fallback to the next resumable case.
  * git itself is given as two oracles: `taken(path, branch)` says whether a
  * candidate's directory or branch already exists, and `gitAdd(branch, path,
  * base)` is the outcome of `git worktree add`. */
module SessionFlow {
  import opened Text
  import opened ScopePaths
  import opened StoreSchema
  import opened CoreStore
  import opened SessionStore
  import opened WorktreeNaming
  import opened Service

  // -------------------------------------------------------------- intents

  /** The intent `session.open` acts on: lower-cased and trimmed, with blank
    * and "auto" meaning new work. */
  function ResolveIntent(intent: string): (r: string)
    ensures r != "" && r != "auto"
    ensures var given := TrimSpace(ToLower(intent));
      (given == "" || given == "auto" ==> r == "new_work") && (given != "" && given != "auto" ==> r == given)
  {
    var given := TrimSpace(ToLower(intent));
    if given == "" || given == "auto" then "new_work" else given
  }

  /** Spelling does not matter: any casing of an intent resolves alike. */
  lemma ResolveIntentIgnoresCase(intent: string)
    ensures ResolveIntent(ToLower(intent)) == ResolveIntent(intent)
  {
    ToLowerIdempotent(intent);
  }

  // ------------------------------------------------- conflict recognition

  predicate MentionsConflict(s: string) {
    Contains(s, "already exists") || Contains(s, "already checked out") || Contains(s, "already used by worktree")
  }

  /** `isLikelyWorktreeConflictError`: git's message, trimmed and lower-cased,
    * says the branch or directory is already there. */
  predicate IsLikelyWorktreeConflictError(msg: string) {
    MentionsConflict(Canon(msg))
  }

  /** Case and surrounding white space of the message do not matter. */
  lemma ConflictIgnoresCaseAndSpace(msg: string)
    ensures IsLikelyWorktreeConflictError(Canon(msg)) == IsLikelyWorktreeConflictError(msg)
  {
    CanonIdempotent(msg);
  }

  // ------------------------------------------------------ candidate search

  const MaxAttempts := 64

  /** A branch and directory to try. */
  datatype Candidate = Candidate(branch: string, path: string)

  /** How the search ended: at a free candidate git accepted, at the first
    * git error that is not retried, or with every attempt used up. */
  datatype Allocation = Allocated(attempt: nat) | GitFailed(attempt: nat, msg: string) | Exhausted

  /** `git worktree add` from `baseRef`, as a function of the candidate. */
  function GitAdder(baseRef: string, gitAdd: (string, string, string) -> Option<string>): Candidate -> Option<string> {
    (c: Candidate) => RunGitWorktreeAdd(c.path, c.branch, baseRef, gitAdd)
  }

  /** Attempt `k` moves on to the next one: its candidate is taken, or git
    * reported a conflict and conflicts are retried. */
  predicate Skipped(candidate: nat -> Candidate, taken: (string, string) -> bool,
                    add: Candidate -> Option<string>, retryConflicts: bool, k: nat)
  {
    var c := candidate(k);
    taken(c.path, c.branch) || (retryConflicts && add(c).Some? && IsLikelyWorktreeConflictError(add(c).value))
  }

  /** Every attempt in `lo..hi` was skipped. */
  predicate AllSkipped(candidate: nat -> Candidate, taken: (string, string) -> bool,
                       add: Candidate -> Option<string>, retryConflicts: bool, lo: nat, hi: nat)
  {
    forall k :: lo <= k < hi ==> Skipped(candidate, taken, add, retryConflicts, k)
  }

  /** What the search both allocation loops run must end with: skipping
    * taken candidates and (when allowed) git conflicts, it stops at the
    * first candidate git accepts, at the first other git error, or after 64
    * attempts. */
  predicate SearchOutcome(candidate: nat -> Candidate, taken: (string, string) -> bool,
                          add: Candidate -> Option<string>, retryConflicts: bool, found: Allocation)
  {
    match found
    case Allocated(a) =>
      a < MaxAttempts && AllSkipped(candidate, taken, add, retryConflicts, 0, a)
      && !taken(candidate(a).path, candidate(a).branch) && add(candidate(a)).None?
    case GitFailed(a, e) =>
      a < MaxAttempts && AllSkipped(candidate, taken, add, retryConflicts, 0, a)
      && !taken(candidate(a).path, candidate(a).branch) && add(candidate(a)) == Some(e)
      && !(retryConflicts && IsLikelyWorktreeConflictError(e))
    case Exhausted =>
      AllSkipped(candidate, taken, add, retryConflicts, 0, MaxAttempts)
  }

  lemma SkippedWithin(candidate: nat -> Candidate, taken: (string, string) -> bool,
                      add: Candidate -> Option<string>, retryConflicts: bool, hi: nat, k: nat)
    requires AllSkipped(candidate, taken, add, retryConflicts, 0, hi) && k < hi
    ensures Skipped(candidate, taken, add, retryConflicts, k)
  {
  }

  /** The outcome is determined: two searches over the same candidates and
    * the same git end alike. */
  lemma SearchOutcomeUnique(candidate: nat -> Candidate, taken: (string, string) -> bool,
                            add: Candidate -> Option<string>, retryConflicts: bool, f: Allocation, g: Allocation)
    requires SearchOutcome(candidate, taken, add, retryConflicts, f)
    requires SearchOutcome(candidate, taken, add, retryConflicts, g)
    ensures f == g
  {
    if !f.Exhausted? && !g.Exhausted? && f.attempt < g.attempt {
      SkippedWithin(candidate, taken, add, retryConflicts, g.attempt, f.attempt);
    } else if !f.Exhausted? && !g.Exhausted? && g.attempt < f.attempt {
      SkippedWithin(candidate, taken, add, retryConflicts, f.attempt, g.attempt);
    } else if !f.Exhausted? && g.Exhausted? {
      SkippedWithin(candidate, taken, add, retryConflicts, MaxAttempts, f.attempt);
    } else if f.Exhausted? && !g.Exhausted? {
      SkippedWithin(candidate, taken, add, retryConflicts, MaxAttempts, g.attempt);
    }
  }

  /** The search loop `createSessionRootWorktree` and `spawnWorktree` share:
    * it walks the attempts in order. */
  method SearchCandidates(candidate: nat -> Candidate, taken: (string, string) -> bool,
                          add: Candidate -> Option<string>, retryConflicts: bool)
    returns (found: Allocation)
    ensures SearchOutcome(candidate, taken, add, retryConflicts, found)
  {
    var attempt := 0;
    while attempt < MaxAttempts
      invariant 0 <= attempt <= MaxAttempts
      invariant AllSkipped(candidate, taken, add, retryConflicts, 0, attempt)
    {
      var c := candidate(attempt);
      if taken(c.path, c.branch) {
        attempt := attempt + 1;
        continue;
      }
      var failure := add(c);
      if failure.None? {
        return Allocated(attempt);
      }
      if !(retryConflicts && IsLikelyWorktreeConflictError(failure.value)) {
        return GitFailed(attempt, failure.value);
      }
      attempt := attempt + 1;
    }
    found := Exhausted;
  }

  /** `task/<session>/<slug>`: the branch of a generated worktree. */
  function TaskBranch(sessionId: int, slug: string): string {
    "task/" + IntToString(sessionId) + "/" + slug
  }

  /** `<repo>/.codex-orch/worktrees/<slug>`: the directory of a generated
    * worktree. */
  function SlugPath(repoPath: string, slug: string): string {
    FilepathJoin([repoPath, ".codex-orch", "worktrees", slug])
  }

  /** Different slugs give different generated branches. */
  lemma TaskBranchInjective(sessionId: int, a: string, b: string)
    requires TaskBranch(sessionId, a) == TaskBranch(sessionId, b)
    ensures a == b
  {
    var p := "task/" + IntToString(sessionId) + "/";
    assert TaskBranch(sessionId, a) == p + a && TaskBranch(sessionId, b) == p + b;
    assert a == (p + a)[|p|..] && b == (p + b)[|p|..];
  }

  /** The directory of a slug under an absolute repository is named by the
    * slug itself. */
  lemma SlugPathBase(repoPath: string, slug: string)
    requires repoPath != [] && repoPath[0] == '/'
    requires slug != "" && IsSlugText(slug)
    ensures PathBase(SlugPath(repoPath, slug)) == slug
  {
    assert slug[0] != '.';
    WorktreeDirBase(repoPath, slug);
  }

  /** Two attempts of one search never try the same generated branch, nor,
    * under an absolute repository, the same directory. */
  lemma GeneratedCandidatesDistinct(repoPath: string, sessionId: int, slug: string, a: nat, b: nat)
    requires a < b
    ensures TaskBranch(sessionId, SlugWithSuffix(slug, a)) != TaskBranch(sessionId, SlugWithSuffix(slug, b))
    ensures repoPath != [] && repoPath[0] == '/' ==>
      SlugPath(repoPath, SlugWithSuffix(slug, a)) != SlugPath(repoPath, SlugWithSuffix(slug, b))
  {
    SlugWithSuffixDistinct(slug, a, b);
    if TaskBranch(sessionId, SlugWithSuffix(slug, a)) == TaskBranch(sessionId, SlugWithSuffix(slug, b)) {
      TaskBranchInjective(sessionId, SlugWithSuffix(slug, a), SlugWithSuffix(slug, b));
    }
    if repoPath != [] && repoPath[0] == '/' {
      SuffixedSlugShape(slug, a);
      SuffixedSlugShape(slug, b);
      SlugPathBase(repoPath, SlugWithSuffix(slug, a));
      SlugPathBase(repoPath, SlugWithSuffix(slug, b));
    }
  }

  /** Every suffixed slug is non-empty slug text. */
  lemma SuffixedSlugShape(slug: string, attempt: int)
    ensures SlugWithSuffix(slug, attempt) != "" && IsSlugText(SlugWithSuffix(slug, attempt))
  {
    var base := OrName(Slug(slug), "work");
    assert base != "" && IsSlugText(base) by {
      WorkIsSlugText();
    }
    if attempt > 0 {
      SuffixShape(base, NatToString(attempt + 1));
    }
  }

  lemma SuffixShape(base: string, digits: string)
    requires IsSlugText(base) && AllDigits(digits)
    ensures IsSlugText(base + "-" + digits)
  {
    assert IsSlugText(digits) by {
      forall i | 0 <= i < |digits|
        ensures IsSlugChar(digits[i])
      {
        assert IsDigit(digits[i]);
      }
    }
    SlugTextConcat(base, "-" + digits);
    assert base + "-" + digits == base + ("-" + digits);
  }

  lemma WorkIsSlugText()
    ensures IsSlugText("work")
  {
    var w := "work";
    assert w[0] == 'w' && w[1] == 'o' && w[2] == 'r' && w[3] == 'k';
  }

  lemma SlugTextConcat(a: string, b: string)
    requires IsSlugText(a) && (b == [] || b[0] == '-') && (forall i :: 1 <= i < |b| ==> IsSlugChar(b[i]))
    ensures IsSlugText(a + b)
  {
    forall i | 0 <= i < |a + b|
      ensures IsSlugChar((a + b)[i]) || (a + b)[i] == '-'
    {
      if i >= |a| {
        assert (a + b)[i] == b[i - |a|];
      }
    }
  }

  // ------------------------------------------------ session-root worktree

  /** The slug a session root starts from: the preferred one, else
    * `task-<session>`. */
  function RootSlug(preferredSlug: string, sessionId: int): string {
    DeriveWorktreeSlug(preferredSlug, "task-" + IntToString(sessionId))
  }

  function RootCandidate(repoPath: string, sessionId: int, slug: string, k: nat): Candidate {
    var candidateSlug := SlugWithSuffix(slug, k);
    Candidate(TaskBranch(sessionId, candidateSlug), SlugPath(repoPath, candidateSlug))
  }

  function RootCandidates(repoPath: string, sessionId: int, slug: string): nat -> Candidate {
    (k: nat) => RootCandidate(repoPath, sessionId, slug, k)
  }

  /** The record of a session root: active, kind session_root, child of the
    * main worktree and owned by the session. */
  function RootRecord(c: Candidate, mainWorktreeId: int, sessionId: int): WorktreeCreateArgs {
    WorktreeCreateArgs(0, c.path, c.branch, "active", "session_root", Some(mainWorktreeId), Some(sessionId), "active")
  }

  /** The row a session root is recorded as. */
  lemma RootRecordRow(c: Candidate, mainWorktreeId: int, sessionId: int, now: int)
    ensures var w := WorktreeRow(RootRecord(c, mainWorktreeId, sessionId), now);
      w.kind == "session_root" && w.status == "active" && w.path == c.path && w.branch == c.branch
      && w.parent == Some(mainWorktreeId) && w.ownerSession == Some(sessionId)
  {
    assert !IsSpace("session_root"[0]) && !IsSpace("active"[0]);
  }

  datatype RootWorktree = RootWorktree(id: int, slug: string, path: string)

  function RootExhausted(sessionId: int): string {
    "unable to allocate unique session worktree for session=" + IntToString(sessionId)
  }

  /** `createSessionRootWorktree`: tries `task/<session>/<slug>` at
    * `<repo>/.codex-orch/worktrees/<slug>` with suffixes -2, -3, ... until a
    * free candidate is checked out from the main worktree's branch, and
    * records it. */
  method CreateSessionRootWorktree(st: Store, repoPath: string, sessionId: int, mainWorktreeId: int,
                                   mainBranch: string, preferredSlug: string,
                                   taken: (string, string) -> bool,
                                   gitAdd: (string, string, string) -> Option<string>, now: int)
    returns (r: Result<RootWorktree>, ghost found: Allocation)
    requires st.Valid()
    modifies st`worktrees, st`dbVersion, st`mirrorUpdatedAt
    ensures st.Valid() && st.sessions == old(st.sessions)
    ensures SearchOutcome(RootCandidates(repoPath, sessionId, RootSlug(preferredSlug, sessionId)), taken,
                          GitAdder(mainBranch, gitAdd), true, found)
    ensures found.Exhausted? ==> r == Err(RootExhausted(sessionId))
    ensures found.GitFailed? ==> r == Err(found.msg)
    ensures found.Allocated? ==>
      var slug := RootSlug(preferredSlug, sessionId);
      var c := RootCandidate(repoPath, sessionId, slug, found.attempt);
      (r.Ok? <==> !IsBlank(c.path))
      && (r.Ok? ==>
            r.value.id == old(st.worktrees.lastId) + 1 && r.value.slug == SlugWithSuffix(slug, found.attempt)
            && r.value.path == c.path
            && st.worktrees == old(st.worktrees).Insert(WorktreeRow(RootRecord(c, mainWorktreeId, sessionId), now)))
    ensures r.Err? ==> st.worktrees == old(st.worktrees) && st.NotBumped()
    ensures r.Ok? ==> st.Bumped(now)
    ensures r.Ok? ==>
      r.value.id in st.worktrees.rows && st.worktrees.rows[r.value.id].path == r.value.path
      && st.worktrees.rows[r.value.id].kind == "session_root"
      && st.worktrees.rows[r.value.id].parent == Some(mainWorktreeId)
      && st.worktrees.rows[r.value.id].ownerSession == Some(sessionId)
  {
    var slug := RootSlug(preferredSlug, sessionId);
    var search := SearchCandidates(RootCandidates(repoPath, sessionId, slug), taken, GitAdder(mainBranch, gitAdd), true);
    found := search;
    match search
    case Exhausted =>
      r := Err(RootExhausted(sessionId));
    case GitFailed(_, msg) =>
      r := Err(msg);
    case Allocated(attempt) =>
      var c := RootCandidate(repoPath, sessionId, slug, attempt);
      assert !IsBlank(c.branch) by {
        assert c.branch[0] == 't';
      }
      RootRecordRow(c, mainWorktreeId, sessionId, now);
      var record := CreateWorktreeRecord(st, RootRecord(c, mainWorktreeId, sessionId), now);
      if record.Err? {
        r := Err(record.msg);
      } else {
        r := Ok(RootWorktree(record.value, SlugWithSuffix(slug, attempt), c.path));
      }
  }

  // ---------------------------------------------------------- session.open

  datatype OpenInput = OpenInput(
    agentRole: string, owner: string, terminalFingerprint: string, intent: string,
    heartbeatTimeoutSeconds: int, alwaysBranch: Option<bool>, worktreeName: string, userRequest: string)

  /** What `session.open` hands back: the resume candidates to choose from,
    * or the new session root and its tmux viewer session. */
  datatype OpenOutcome =
    | AwaitingResume(sessionId: int, mainWorktree: int, candidates: seq<ResumeCandidate>)
    | RootReady(sessionId: int, mainWorktree: int, rootWorktree: int, rootPath: string, slug: string, viewer: string)

  const RootLocalOnly := "always_branch=false is not supported in root-local mode"

  const DefaultMainBranch := "main"

  /** The branch recorded for a new main worktree: what `git rev-parse
    * --abbrev-ref HEAD` printed, trimmed, or "main" when git failed
    * (`None`) or printed nothing. */
  function MainBranch(gitOutput: Option<string>): (b: string)
    ensures !IsBlank(b)
    ensures gitOutput.Some? && !IsBlank(gitOutput.value) ==> b == TrimSpace(gitOutput.value)
    ensures gitOutput.None? || IsBlank(gitOutput.value) ==> b == DefaultMainBranch
  {
    WordNotBlank(DefaultMainBranch);
    if gitOutput.None? then DefaultMainBranch
    else
      TrimSpaceBlank(gitOutput.value);
      TrimSpaceIdempotent(gitOutput.value);
      TrimSpaceBlank(TrimSpace(gitOutput.value));
      if TrimSpace(gitOutput.value) == "" then DefaultMainBranch else TrimSpace(gitOutput.value)
  }

  /** The first half of `openSession`: the session row, the checkout's main
    * worktree (found or created), and the session pointed at it with its
    * resolved intent and status "opened". */
  method RecordOpenedSession(st: Store, repoPath: string, input: OpenInput, gitOutput: Option<string>, now: int)
    returns (r: Result<int>, mainId: int)
    requires st.Valid()
    modifies st`sessions, st`worktrees, st`dbVersion, st`mirrorUpdatedAt
    ensures st.Valid()
    ensures r.Err? <==> IsBlank(repoPath)
    ensures r.Err? ==>
      r.msg == "repo_path is required" && st.sessions == old(st.sessions) && st.worktrees == old(st.worktrees)
    ensures r.Ok? ==>
      var found := NewestMainWorktree(old(st.worktrees.rows), repoPath, old(st.worktrees.lastId));
      mainId == MainWorktreeId(old(st.worktrees), repoPath)
      && (found.Some? ==> st.worktrees == old(st.worktrees))
      && (found.None? ==>
            st.worktrees == old(st.worktrees).Insert(WorktreeRow(MainWorktreeArgs(repoPath, MainBranch(gitOutput)), now)))
      && mainId in st.worktrees.rows && IsMainOf(st.worktrees.rows[mainId], repoPath)
    ensures r.Ok? ==>
      r.value == old(st.sessions.lastId) + 1 && r.value in st.sessions.rows
      && st.sessions.rows[r.value].mainWorktree == Some(mainId)
      && st.sessions.rows[r.value].intent == ResolveIntent(input.intent)
      && st.sessions.rows[r.value].status == "opened"
  {
    mainId := 0;
    var created := OpenSession(st, SessionOpenArgs(input.agentRole, input.owner, repoPath, input.terminalFingerprint,
                                                   input.intent), now);
    if created.Err? {
      return Err(created.msg), mainId;
    }
    var sid := created.value;
    mainId := FindOrCreateMain(st, repoPath, gitOutput, now);
    var first := UpdateSession(st, sid, NoSessionChanges().(mainWorktree := Some(mainId),
                                                              intent := Some(ResolveIntent(input.intent)),
                                                              status := Some("opened")), now);
    r := Ok(sid);
  }

  /** The main-worktree step of `openSession` for a non-blank checkout path:
    * the branch git reports (else "main") is never blank, so the
    * lookup-or-insert cannot be refused. */
  method FindOrCreateMain(st: Store, repoPath: string, gitOutput: Option<string>, now: int) returns (mainId: int)
    requires st.Valid() && !IsBlank(repoPath)
    modifies st`worktrees, st`dbVersion, st`mirrorUpdatedAt
    ensures st.Valid()
    ensures var found := NewestMainWorktree(old(st.worktrees.rows), repoPath, old(st.worktrees.lastId));
      mainId == MainWorktreeId(old(st.worktrees), repoPath)
      && (found.Some? ==> st.worktrees == old(st.worktrees))
      && (found.None? ==>
            st.worktrees == old(st.worktrees).Insert(WorktreeRow(MainWorktreeArgs(repoPath, MainBranch(gitOutput)), now)))
      && mainId in st.worktrees.rows && IsMainOf(st.worktrees.rows[mainId], repoPath)
  {
    var main := CreateOrGetMainWorktree(st, repoPath, MainBranch(gitOutput), now);
    mainId := main.value;
  }

  /** The resume branch of `openSession`: the session waits for the caller
    * to pick one of the suspended sessions of the repository. */
  method AwaitResumeChoice(st: Store, repoPath: string, sessionId: int, mainId: int, heartbeatTimeoutSeconds: int, now: int)
    returns (r: Result<OpenOutcome>)
    requires st.Valid() && sessionId in st.sessions.rows
    modifies st`sessions, st`dbVersion, st`mirrorUpdatedAt
    ensures st.Valid() && sessionId in st.sessions.rows && st.worktrees == old(st.worktrees)
    ensures st.sessions.rows[sessionId] == old(st.sessions.rows[sessionId]).(status := "awaiting_resume", lastSeenAt := now)
    ensures r.Ok? ==> r.value.AwaitingResume? && r.value.sessionId == sessionId && r.value.mainWorktree == mainId
  {
    var waiting := UpdateSession(st, sessionId, NoSessionChanges().(status := Some("awaiting_resume")), now);
    var candidates := ListResumeCandidates(st, repoPath, sessionId, heartbeatTimeoutSeconds, now);
    if candidates.Err? {
      return Err(candidates.msg);
    }
    r := Ok(AwaitingResume(sessionId, mainId, candidates.value));
  }

  /** The last update of `openSession`: the session runs root-local in its
    * new root worktree, watched through the viewer tmux session. */
  method MarkRootLocalReady(st: Store, sessionId: int, rootWorktree: int, viewer: string, now: int)
    requires st.Valid() && sessionId in st.sessions.rows
    modifies st`sessions, st`dbVersion, st`mirrorUpdatedAt
    ensures st.Valid() && sessionId in st.sessions.rows && st.worktrees == old(st.worktrees)
    ensures var session := st.sessions.rows[sessionId];
      session.status == "active_new" && session.sessionRoot == Some(rootWorktree)
      && session.tmuxSessionName == Some(viewer) && session.runtimeState == Some("root_local_ready")
      && session.mainWorktree == old(st.sessions.rows[sessionId]).mainWorktree
      && session.intent == old(st.sessions.rows[sessionId]).intent
  {
    var ready := UpdateSession(st, sessionId, NoSessionChanges().(sessionRoot := Some(rootWorktree),
                                                                    status := Some("active_new"),
                                                                    tmuxSessionName := Some(viewer),
                                                                    runtimeState := Some("root_local_ready")), now);
  }

  /** The root-local branch of `openSession`: the session's own root
    * worktree, named after the worktree name or the user's request, and the
    * tmux session a viewer attaches to. */
  method StartRootLocal(st: Store, repoPath: string, sessionId: int, preferredSlug: string, mainWorktreeId: int,
                        mainBranch: string, taken: (string, string) -> bool,
                        gitAdd: (string, string, string) -> Option<string>, now: int)
    returns (r: Result<OpenOutcome>)
    requires st.Valid() && sessionId in st.sessions.rows
    modifies st`sessions, st`worktrees, st`dbVersion, st`mirrorUpdatedAt
    ensures st.Valid() && sessionId in st.sessions.rows
    ensures r.Err? ==> st.sessions == old(st.sessions)
    ensures r.Ok? ==>
      var session := st.sessions.rows[sessionId];
      r.value.RootReady? && r.value.sessionId == sessionId && r.value.mainWorktree == mainWorktreeId
      && r.value.rootWorktree in st.worktrees.rows
      && st.worktrees.rows[r.value.rootWorktree].path == r.value.rootPath
      && st.worktrees.rows[r.value.rootWorktree].kind == "session_root"
      && st.worktrees.rows[r.value.rootWorktree].ownerSession == Some(sessionId)
      && r.value.viewer == BuildViewerTmuxSessionName(repoPath, r.value.rootPath)
      && session.status == "active_new" && session.sessionRoot == Some(r.value.rootWorktree)
      && session.tmuxSessionName == Some(r.value.viewer) && session.runtimeState == Some("root_local_ready")
      && session.mainWorktree == old(st.sessions.rows[sessionId]).mainWorktree
      && session.intent == old(st.sessions.rows[sessionId]).intent
  {
    var root, _ := CreateSessionRootWorktree(st, repoPath, sessionId, mainWorktreeId, mainBranch, preferredSlug, taken, gitAdd, now);
    if root.Err? {
      return Err(root.msg);
    }
    var viewer := BuildViewerTmuxSessionName(repoPath, root.value.path);
    MarkRootLocalReady(st, sessionId, root.value.id, viewer, now);
    r := Ok(RootReady(sessionId, mainWorktreeId, root.value.id, root.value.path, root.value.slug, viewer));
  }


  /** `openSession`: records the session and the checkout's main worktree,
    * then either asks the caller to pick a session to resume (intent
    * resume_work) or allocates the session's own root worktree, branched
    * from the main worktree's branch. Refusing always_branch=false happens
    * after the session row is written, so the row stays. */
  method OpenSessionFlow(st: Store, repoPath: string, input: OpenInput, gitOutput: Option<string>,
                         taken: (string, string) -> bool,
                         gitAdd: (string, string, string) -> Option<string>, now: int)
    returns (r: Result<OpenOutcome>)
    requires st.Valid()
    modifies st`sessions, st`worktrees, st`dbVersion, st`mirrorUpdatedAt
    ensures st.Valid()
    ensures IsBlank(repoPath) ==>
      r == Err("repo_path is required") && st.sessions == old(st.sessions) && st.worktrees == old(st.worktrees)
    ensures !IsBlank(repoPath) ==>
      var sid := old(st.sessions.lastId) + 1;
      var mainId := MainWorktreeId(old(st.worktrees), repoPath);
      sid in st.sessions.rows
      && st.sessions.rows[sid].mainWorktree == Some(mainId)
      && st.sessions.rows[sid].intent == ResolveIntent(input.intent)
      && (r.Ok? ==> r.value.sessionId == sid && r.value.mainWorktree == mainId)
      && (ResolveIntent(input.intent) == "resume_work" ==>
            st.sessions.rows[sid].status == "awaiting_resume" && (r.Ok? ==> r.value.AwaitingResume?))
      && (ResolveIntent(input.intent) != "resume_work" && input.alwaysBranch == Some(false) ==>
            r == Err(RootLocalOnly) && st.sessions.rows[sid].status == "opened")
      && (ResolveIntent(input.intent) != "resume_work" && input.alwaysBranch != Some(false) && r.Ok? ==>
            r.value.RootReady?
            && st.sessions.rows[sid].status == "active_new"
            && st.sessions.rows[sid].sessionRoot == Some(r.value.rootWorktree))
    ensures !IsBlank(repoPath) && (ResolveIntent(input.intent) == "resume_work" || input.alwaysBranch == Some(false)) ==>
      var found := NewestMainWorktree(old(st.worktrees.rows), repoPath, old(st.worktrees.lastId));
      (found.Some? ==> st.worktrees == old(st.worktrees))
      && (found.None? ==>
            st.worktrees == old(st.worktrees).Insert(WorktreeRow(MainWorktreeArgs(repoPath, MainBranch(gitOutput)), now)))
  {
    var recorded, mainId := RecordOpenedSession(st, repoPath, input, gitOutput, now);
    if recorded.Err? {
      return Err(recorded.msg);
    }
    var sid := recorded.value;
    if ResolveIntent(input.intent) == "resume_work" {
      r := AwaitResumeChoice(st, repoPath, sid, mainId, input.heartbeatTimeoutSeconds, now);
      return;
    }
    var alwaysBranch := if input.alwaysBranch.Some? then input.alwaysBranch.value else true;
    if !alwaysBranch {
      return Err(RootLocalOnly);
    }
    r := StartRootLocal(st, repoPath, sid, DeriveWorktreeSlug(input.worktreeName, input.userRequest), mainId,
                        st.worktrees.rows[mainId].branch, taken, gitAdd, now);
  }

  // ------------------------------------------------------ child worktrees

  datatype SpawnInput = SpawnInput(
    sessionId: int, parentWorktree: int, taskId: Option<int>, reason: string, branch: string,
    path: string, baseRef: string, slug: string, createOnDisk: Option<bool>)

  /** The slug of a child worktree: the given slug, else the reason. */
  function SpawnSlug(input: SpawnInput): string {
    DeriveWorktreeSlug(input.slug, input.reason)
  }

  /** The candidate for attempt `k`: a given branch or path is kept as is
    * (trimmed), a missing one is generated from the suffixed slug. */
  function SpawnCandidate(repoPath: string, input: SpawnInput, slug: string, k: nat): Candidate {
    var candidateSlug := SlugWithSuffix(slug, k);
    Candidate(if IsBlank(input.branch) then TaskBranch(input.sessionId, candidateSlug) else TrimSpace(input.branch),
              if IsBlank(input.path) then SlugPath(repoPath, candidateSlug) else TrimSpace(input.path))
  }

  function SpawnCandidates(repoPath: string, input: SpawnInput, slug: string): nat -> Candidate {
    (k: nat) => SpawnCandidate(repoPath, input, slug, k)
  }

  /** The branch and directory recorded without a checkout on disk: the
    * given ones, else generated from the unsuffixed slug. */
  function SpawnPlanned(repoPath: string, input: SpawnInput, slug: string): Candidate {
    Candidate(if IsBlank(input.branch) then TaskBranch(input.sessionId, slug) else TrimSpace(input.branch),
              if IsBlank(input.path) then SlugPath(repoPath, slug) else TrimSpace(input.path))
  }

  /** Only a fully generated candidate is retried after a git conflict. */
  function RetriesConflicts(input: SpawnInput): bool {
    IsBlank(input.branch) && IsBlank(input.path)
  }

  /** The base a child is checked out from: the given ref, else the parent's
    * branch. */
  function SpawnBase(input: SpawnInput, parent: Worktree): string {
    if IsBlank(input.baseRef) then parent.branch else TrimSpace(input.baseRef)
  }

  function CreatesOnDisk(input: SpawnInput): bool {
    if input.createOnDisk.Some? then input.createOnDisk.value else true
  }

  /** The record of a child worktree: a task branch of its parent, owned by
    * the session, active when checked out and planned otherwise. */
  function SpawnRecord(input: SpawnInput, c: Candidate): WorktreeCreateArgs {
    WorktreeCreateArgs(if input.taskId.Some? then input.taskId.value else 0, c.path, c.branch,
                       if CreatesOnDisk(input) then "active" else "planned", "task_branch",
                       Some(input.parentWorktree), Some(input.sessionId), "active")
  }

  function ForeignOwner(w: Worktree, sessionId: int): bool {
    w.ownerSession.Some? && w.ownerSession.value != sessionId
  }

  function SpawnExhausted(slug: string): string {
    "unable to allocate unique worktree for slug=" + slug
  }

  /** The candidate a successful spawn records. */
  function SpawnChoice(repoPath: string, input: SpawnInput, found: Allocation): Candidate {
    if CreatesOnDisk(input) && found.Allocated?
    then SpawnCandidate(repoPath, input, SpawnSlug(input), found.attempt)
    else SpawnPlanned(repoPath, input, SpawnSlug(input))
  }

  /** `spawnWorktree`: a child of a worktree the session may use, checked out
    * on disk unless told otherwise. */
  method SpawnWorktree(st: Store, repoPath: string, input: SpawnInput,
                       taken: (string, string) -> bool,
                       gitAdd: (string, string, string) -> Option<string>, now: int)
    returns (r: Result<int>, ghost found: Allocation)
    requires st.Valid()
    modifies st`worktrees, st`dbVersion, st`mirrorUpdatedAt
    ensures st.Valid()
    ensures input.parentWorktree !in old(st.worktrees.rows) ==> r == Err(NoRows)
    ensures input.parentWorktree in old(st.worktrees.rows) && ForeignOwner(old(st.worktrees.rows[input.parentWorktree]), input.sessionId) ==>
      r == Err("parent worktree belongs to another session: "
               + IntToString(old(st.worktrees.rows[input.parentWorktree]).ownerSession.value))
    ensures input.parentWorktree in old(st.worktrees.rows) ==>
      var parent := old(st.worktrees.rows[input.parentWorktree]);
      var slug := SpawnSlug(input);
      var chosen := SpawnChoice(repoPath, input, found);
      !ForeignOwner(parent, input.sessionId) ==>
        (CreatesOnDisk(input) ==>
           SearchOutcome(SpawnCandidates(repoPath, input, slug), taken, GitAdder(SpawnBase(input, parent), gitAdd),
                         RetriesConflicts(input), found))
        && (CreatesOnDisk(input) && found.Exhausted? ==> r == Err(SpawnExhausted(slug)))
        && (CreatesOnDisk(input) && found.GitFailed? ==> r == Err(found.msg))
        && (r.Ok? <==> (!CreatesOnDisk(input) || found.Allocated?) && !IsBlank(chosen.path) && !IsBlank(chosen.branch))
        && (r.Ok? ==>
              r.value == old(st.worktrees.lastId) + 1
              && st.worktrees == old(st.worktrees).Insert(WorktreeRow(SpawnRecord(input, chosen), now)))
    ensures r.Err? ==> st.worktrees == old(st.worktrees) && st.NotBumped()
    ensures r.Ok? ==> st.Bumped(now)
  {
    found := Exhausted;
    if input.parentWorktree !in st.worktrees.rows {
      return Err(NoRows), found;
    }
    var parent := st.worktrees.rows[input.parentWorktree];
    if ForeignOwner(parent, input.sessionId) {
      return Err("parent worktree belongs to another session: " + IntToString(parent.ownerSession.value)), found;
    }
    var baseRef := SpawnBase(input, parent);
    var slug := SpawnSlug(input);
    var planned := SpawnPlanned(repoPath, input, slug);
    var branch := planned.branch;
    var worktreePath := planned.path;
    if CreatesOnDisk(input) {
      var search := SearchCandidates(SpawnCandidates(repoPath, input, slug), taken, GitAdder(baseRef, gitAdd),
                                     RetriesConflicts(input));
      found := search;
      match search
      case Exhausted =>
        return Err(SpawnExhausted(slug)), found;
      case GitFailed(_, msg) =>
        return Err(msg), found;
      case Allocated(attempt) =>
        var c := SpawnCandidate(repoPath, input, slug, attempt);
        branch, worktreePath := c.branch, c.path;
    }
    r := CreateWorktreeRecord(st, SpawnRecord(input, Candidate(branch, worktreePath)), now);
  }


  // ------------------------------------------------------------- merging

  /** `mergeWorktreeToParent`: only a child worktree, and only one the
    * session may use, is merged; `gitMerge(parentPath, branch)` is the
    * outcome of `git merge --no-ff` in the parent's directory. On success the
    * child is marked merged_to_parent and closed. */
  method MergeWorktreeToParent(st: Store, sessionId: int, worktreeId: int,
                               gitMerge: (string, string) -> Option<string>, now: int)
    returns (r: Result<Worktree>)
    requires st.Valid()
    modifies st`worktrees, st`dbVersion, st`mirrorUpdatedAt
    ensures st.Valid()
    ensures worktreeId !in old(st.worktrees.rows) ==> r == Err(NoRows)
    ensures worktreeId in old(st.worktrees.rows) ==>
      var child := old(st.worktrees.rows[worktreeId]);
      (child.parent.None? ==> r == Err("worktree has no parent: " + IntToString(worktreeId)))
      && (child.parent.Some? && ForeignOwner(child, sessionId) ==>
            r == Err("worktree belongs to another session: " + IntToString(child.ownerSession.value)))
      && (child.parent.Some? && !ForeignOwner(child, sessionId) && child.parent.value !in old(st.worktrees.rows) ==>
            r == Err(NoRows))
      && (r.Ok? <==>
            child.parent.Some? && !ForeignOwner(child, sessionId) && child.parent.value in old(st.worktrees.rows)
            && gitMerge(old(st.worktrees.rows[child.parent.value]).path, child.branch).None?)
      && (r.Ok? ==>
            r.value == MergedToParent(child, now)
            && r.value.mergeState == "merged_to_parent" && r.value.status == "closed"
            && st.worktrees == old(st.worktrees).Put(worktreeId, r.value))
    ensures r.Err? ==> st.worktrees == old(st.worktrees) && st.NotBumped()
    ensures r.Ok? ==> st.Bumped(now)
  {
    if worktreeId !in st.worktrees.rows {
      return Err(NoRows);
    }
    var child := st.worktrees.rows[worktreeId];
    if child.parent.None? {
      return Err("worktree has no parent: " + IntToString(worktreeId));
    }
    if ForeignOwner(child, sessionId) {
      return Err("worktree belongs to another session: " + IntToString(child.ownerSession.value));
    }
    if child.parent.value !in st.worktrees.rows {
      return Err(NoRows);
    }
    var parent := st.worktrees.rows[child.parent.value];
    var failure := gitMerge(parent.path, child.branch);
    if failure.Some? {
      return Err(failure.value);
    }
    r := MarkWorktreeMergedToParent(st, worktreeId, now);
  }

  // ---------------------------------------------------------- current ref

  /** Where `work.current_ref` found the session's ref. */
  datatype RefSource =
    | FromCurrentRefs(refId: int)
    | FromResumeNext(refId: int, taskId: int, checkpointId: Option<int>)
    | NoRef

  /** `marshalStringSlice`: "[]" for no files; otherwise the JSON array
    * `encode` produces. */
  function MarshalStringSlice(values: seq<string>, encode: seq<string> -> string): (r: string)
    ensures values == [] ==> r == "[]"
  {
    if |values| == 0 then "[]" else encode(values)
  }

  /** The ref `work.current_ref` creates from the next resumable case. */
  function ResumeRefArgs(sessionId: int, task: Task, taskId: int, checkpointId: Option<int>, mode: string,
                         requiredFiles: string): RefUpsertArgs {
    RefUpsertArgs(sessionId, "case", taskId, checkpointId, mode, "active", "resume from latest checkpoint",
                  task.title, requiredFiles)
  }

  /** `currentRef`: the session's active ref if it has one; otherwise a new
    * active ref on the next resumable case and its latest checkpoint; and
    * no ref at all when no case is open. */
  method CurrentRef(st: Store, sessionId: int, mode: string, requiredFiles: seq<string>,
                    encode: seq<string> -> string, now: int)
    returns (r: Result<RefSource>)
    requires st.Valid()
    modifies st`refs, st`dbVersion, st`mirrorUpdatedAt
    ensures st.Valid()
    ensures ActiveRef(old(st.refs), sessionId).Some? ==>
      r == Ok(FromCurrentRefs(ActiveRef(old(st.refs), sessionId).value)) && st.refs == old(st.refs) && st.NotBumped()
    ensures ActiveRef(old(st.refs), sessionId).None? && ResumeNextCase(st).0.None? ==>
      r == Ok(NoRef) && st.refs == old(st.refs) && st.NotBumped()
    ensures ActiveRef(old(st.refs), sessionId).None? && ResumeNextCase(st).0.Some? ==>
      var next := ResumeNextCase(st);
      (sessionId <= 0 ==> r == Err("session_id is required") && st.refs == old(st.refs) && st.NotBumped())
      && (sessionId > 0 ==>
            r == Ok(FromResumeNext(old(st.refs.lastId) + 1, next.0.value, next.1))
            && st.refs == old(st.refs).Insert(NewRef(ResumeRefArgs(sessionId, st.tasks.rows[next.0.value],
                                                                   next.0.value, next.1, mode,
                                                                   MarshalStringSlice(requiredFiles, encode)), now))
            && st.Bumped(now))
  {
    var active := ActiveRef(st.refs, sessionId);
    if active.Some? {
      return Ok(FromCurrentRefs(active.value));
    }
    var next := ResumeNextCase(st);
    if next.0.None? {
      return Ok(NoRef);
    }
    var taskId := next.0.value;
    var args := ResumeRefArgs(sessionId, st.tasks.rows[taskId], taskId, next.1, mode,
                              MarshalStringSlice(requiredFiles, encode));
    assert !IsBlank("case") by {
      assert "case"[0] == 'c';
    }
    var written := UpsertCurrentRef(st, args, now);
    if written.Err? {
      return Err(written.msg);
    }
    r := Ok(FromResumeNext(written.value, taskId, next.1));
  }
}
