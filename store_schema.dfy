/** The orchestrator's state store: one record type per table, each table an
  * autoincrement map from row id to record, and one `Store` object holding
  * every table plus the `mirror_meta` counters and the `merge_main_lock`
  * singleton row. Timestamps are integers read from a clock the caller passes
  * in; nullable columns are `Option`s. */
module StoreSchema {
  import opened Text
  import opened ScopePaths

  // ------------------------------------------------------------ tables

  /** A table with an AUTOINCREMENT primary key: every stored id lies in
    * `1..lastId`, and the next insert receives `lastId + 1`. */
  datatype Table<T> = Table(rows: map<int, T>, lastId: nat)
  {
    predicate Valid() {
      forall id :: id in rows ==> 1 <= id <= lastId
    }

    function Insert(r: T): Table<T> {
      Table(rows[lastId + 1 := r], lastId + 1)
    }

    function Put(id: int, r: T): Table<T> {
      Table(rows[id := r], lastId)
    }
  }

  function EmptyTable<T>(): (t: Table<T>)
    ensures t.Valid() && t.rows == map[]
  {
    Table(map[], 0)
  }

  /** An insert never overwrites a row, keeps the table valid, and the new
    * row is the only one that was not there before. */
  lemma InsertFresh<T>(t: Table<T>, r: T)
    requires t.Valid()
    ensures t.lastId + 1 !in t.rows
    ensures t.Insert(r).Valid()
    ensures t.Insert(r).rows.Keys == t.rows.Keys + {t.lastId + 1}
    ensures forall id :: id in t.rows ==> t.Insert(r).rows[id] == t.rows[id]
  {
  }

  /** The table after a row made by `row` from each of `xs` was inserted
    * in order. */
  function InsertEach<S, T>(t: Table<T>, row: S -> T, xs: seq<S>): Table<T>
    decreases |xs|
  {
    if xs == [] then t else InsertEach(t, row, xs[..|xs| - 1]).Insert(row(xs[|xs| - 1]))
  }

  lemma InsertEachSnoc<S, T>(t: Table<T>, row: S -> T, xs: seq<S>, k: nat)
    requires k < |xs|
    ensures InsertEach(t, row, xs[..k + 1]) == InsertEach(t, row, xs[..k]).Insert(row(xs[k]))
  {
    assert xs[..k + 1][..k] == xs[..k];
  }

  /** The row for `xs[i]` gets id `lastId + 1 + i`; the rows already there
    * are untouched and nothing else is added. */
  lemma {:induction false} InsertEachAt<S, T>(t: Table<T>, row: S -> T, xs: seq<S>)
    requires t.Valid()
    ensures var u := InsertEach(t, row, xs);
      u.Valid() && u.lastId == t.lastId + |xs|
      && (forall id :: id in t.rows ==> id in u.rows && u.rows[id] == t.rows[id])
      && (forall id :: t.lastId < id <= t.lastId + |xs| ==> id in u.rows && u.rows[id] == row(xs[id - t.lastId - 1]))
      && (forall id :: id in u.rows ==> id in t.rows || t.lastId < id <= t.lastId + |xs|)
    decreases |xs|
  {
    if xs != [] {
      var prefix := xs[..|xs| - 1];
      InsertEachAt(t, row, prefix);
      InsertFresh(InsertEach(t, row, prefix), row(xs[|xs| - 1]));
    }
  }

  /** The smallest id in `lo..hi` whose row satisfies `p`. */
  function FirstId<T>(rows: map<int, T>, p: T -> bool, lo: int, hi: int): (r: Option<int>)
    ensures r.Some? ==> lo <= r.value <= hi && r.value in rows && p(rows[r.value])
    ensures r.Some? ==> forall id :: lo <= id < r.value && id in rows ==> !p(rows[id])
    ensures r.None? ==> forall id :: lo <= id <= hi && id in rows ==> !p(rows[id])
    decreases hi - lo
  {
    if lo > hi then None
    else if lo in rows && p(rows[lo]) then Some(lo)
    else FirstId(rows, p, lo + 1, hi)
  }

  /** The largest id in `lo..hi` whose row satisfies `p`. */
  function LastId<T>(rows: map<int, T>, p: T -> bool, lo: int, hi: int): (r: Option<int>)
    ensures r.Some? ==> lo <= r.value <= hi && r.value in rows && p(rows[r.value])
    ensures r.Some? ==> forall id :: r.value < id <= hi && id in rows ==> !p(rows[id])
    ensures r.None? ==> forall id :: lo <= id <= hi && id in rows ==> !p(rows[id])
    decreases hi - lo
  {
    if lo > hi then None
    else if hi in rows && p(rows[hi]) then Some(hi)
    else LastId(rows, p, lo, hi - 1)
  }

  /** `SELECT COUNT(*) ... WHERE p` over the ids `lo..hi`. */
  function CountWhere<T>(rows: map<int, T>, p: T -> bool, lo: int, hi: int): (n: nat)
    ensures n == 0 <==> forall id :: lo <= id <= hi && id in rows ==> !p(rows[id])
    decreases hi - lo
  {
    if lo > hi then 0
    else CountWhere(rows, p, lo, hi - 1) + (if hi in rows && p(rows[hi]) then 1 else 0)
  }

  /** Overwriting one row changes a count by at most the two rows involved. */
  lemma {:induction false} CountWherePut<T>(rows: map<int, T>, p: T -> bool, lo: int, hi: int, id: int, v: T)
    requires id in rows && lo <= id <= hi
    ensures CountWhere(rows[id := v], p, lo, hi)
      == CountWhere(rows, p, lo, hi) - (if p(rows[id]) then 1 else 0) + (if p(v) then 1 else 0)
    decreases hi - lo
  {
    if hi != id {
      CountWherePut(rows, p, lo, hi - 1, id, v);
    } else {
      CountWhereSame(rows, rows[id := v], p, lo, hi - 1);
    }
  }

  /** Counts over maps that agree on `lo..hi` are equal. */
  lemma {:induction false} CountWhereSame<T>(a: map<int, T>, b: map<int, T>, p: T -> bool, lo: int, hi: int)
    requires forall id :: lo <= id <= hi ==> (id in a <==> id in b)
    requires forall id :: lo <= id <= hi && id in a ==> a[id] == b[id]
    ensures CountWhere(a, p, lo, hi) == CountWhere(b, p, lo, hi)
    decreases hi - lo
  {
    if lo <= hi {
      CountWhereSame(a, b, p, lo, hi - 1);
    }
  }

  /** The ids, in ascending order, of exactly the rows that satisfy `p`:
    * the row-by-row scan behind every list query. */
  method SelectIds<T>(t: Table<T>, p: T -> bool) returns (ids: seq<int>)
    requires t.Valid()
    ensures forall i :: 0 <= i < |ids| ==> ids[i] in t.rows && p(t.rows[ids[i]])
    ensures forall id :: id in t.rows && p(t.rows[id]) ==> id in ids
    ensures forall i, j :: 0 <= i < j < |ids| ==> ids[i] < ids[j]
  {
    ids := [];
    var id := 1;
    while id <= t.lastId
      invariant 1 <= id <= t.lastId + 1
      invariant forall i :: 0 <= i < |ids| ==> ids[i] in t.rows && p(t.rows[ids[i]]) && ids[i] < id
      invariant forall k :: k in t.rows && k < id && p(t.rows[k]) ==> k in ids
      invariant forall i, j :: 0 <= i < j < |ids| ==> ids[i] < ids[j]
    {
      if id in t.rows && p(t.rows[id]) {
        ids := ids + [id];
      }
      id := id + 1;
    }
  }

  // ----------------------------------------------------------- records

  datatype Task = Task(
    level: string, parentId: Option<int>, title: string, status: string, priority: int,
    assignee: Option<string>, inputContract: Option<string>, fixtures: Option<string>,
    nextAction: Option<string>, createdAt: int, updatedAt: int)

  /** A step's evidence: the check's result text and its artifacts. */
  datatype Step = Step(
    taskId: int, title: string, status: string, result: string, artifacts: seq<string>,
    orderNo: int, createdAt: int)

  /** What a checkpoint's snapshot records, one alternative per event. */
  datatype CheckpointBody =
    | CaseBegin(inputContract: string, fixtures: string)
    | StepCheck(stepTitle: string, stepResult: string, artifacts: seq<string>)
    | CaseComplete(summary: string, completedNextAction: string)

  datatype Checkpoint = Checkpoint(taskId: int, stepTitle: string, body: CheckpointBody, createdAt: int)

  /** A path-scoped advisory lock; `state` is active, expired or released. */
  datatype Lock = Lock(
    scopeType: string, scopePath: string, owner: string, leaseUntil: int,
    heartbeatAt: int, state: string)

  datatype Worktree = Worktree(
    taskId: int, path: string, branch: string, status: string, kind: string,
    parent: Option<int>, ownerSession: Option<int>, mergeState: string,
    createdAt: int, mergedAt: Option<int>)

  datatype Session = Session(
    agentRole: string, owner: string, repoPath: string, terminalFingerprint: Option<string>,
    intent: string, mainWorktree: Option<int>, sessionRoot: Option<int>, rootThread: Option<int>,
    tmuxSessionName: Option<string>, runtimeState: Option<string>,
    delegationState: Option<string>, delegationRootThread: Option<int>,
    delegationIssuedAt: Option<string>, delegationAckedAt: Option<string>,
    startedAt: int, lastSeenAt: int, status: string)

  /** A session's pointer to the node it works on; `version` grows on every
    * change and acknowledgement. */
  datatype CurrentRef = CurrentRef(
    sessionId: int, nodeType: string, nodeId: int, checkpointId: Option<int>, mode: string,
    status: string, nextAction: Option<string>, summary: Option<string>,
    requiredFiles: Option<string>, ackedAt: Option<int>, version: int,
    createdAt: int, updatedAt: int)

  datatype QueueItem = QueueItem(
    sessionId: int, fromWorktree: int, targetBranch: string, state: string,
    createdAt: int, updatedAt: int)

  /** The single row of `merge_main_lock`. */
  datatype MergeLock = MergeLock(holder: Option<int>, leaseUntil: Option<int>, state: string, updatedAt: int)

  datatype Thread = Thread(
    sessionId: int, parent: Option<int>, role: string, status: string,
    title: Option<string>, objective: Option<string>, worktreeId: Option<int>,
    guidePath: Option<string>, agentOverride: Option<string>,
    tmuxSession: Option<string>, tmuxWindow: Option<string>, tmuxPane: Option<string>,
    launchCommand: Option<string>, createdAt: int, startedAt: Option<int>,
    completedAt: Option<int>, updatedAt: int)

  datatype ReviewJob = ReviewJob(
    mergeRequestId: int, sessionId: int, reviewer: Option<int>, state: string,
    notes: Option<string>, createdAt: int, updatedAt: int, completedAt: Option<int>)

  datatype PrereqEvent = PrereqEvent(
    sessionId: Option<int>, requirement: string, status: string, detail: Option<string>, createdAt: int)

  datatype GraphNode = GraphNode(
    nodeType: string, facet: string, title: string, status: string, priority: int,
    parent: Option<int>, worktreeId: Option<int>, ownerSession: Option<int>,
    summary: Option<string>, riskLevel: Option<int>, tokenEstimate: Option<int>,
    affectedFiles: Option<string>, approvalState: string, createdAt: int, updatedAt: int)

  datatype GraphEdge = GraphEdge(fromNode: int, toNode: int, edgeType: string, createdAt: int)

  datatype ChecklistItem = ChecklistItem(
    nodeId: int, text: string, status: string, orderNo: int, facet: string,
    createdAt: int, updatedAt: int)

  datatype NodeSnapshot = NodeSnapshot(
    nodeId: int, snapshotType: string, summary: Option<string>, affectedFiles: Option<string>,
    nextAction: Option<string>, createdAt: int)

  datatype InboxMessage = InboxMessage(
    sender: int, receiver: int, message: string, status: string, createdAt: int,
    deliveredAt: Option<int>)

  // ---------------------------------------------------- column helpers

  /** The message of `sql.ErrNoRows`, what a single-row query on a missing
    * id fails with. */
  const NoRows := "sql: no rows in result set"

  /** `nullableText`: blank text is stored as NULL, anything else trimmed. */
  function NullableText(s: string): (r: Option<string>)
    ensures r.None? <==> IsBlank(s)
    ensures r.Some? ==> r.value == TrimSpace(s) && r.value != ""
  {
    TrimSpaceBlank(s);
    if TrimSpace(s) == "" then None else Some(TrimSpace(s))
  }

  /** `nullableJSON`: blank JSON is stored as NULL, anything else verbatim. */
  function NullableJson(s: string): (r: Option<string>)
    ensures r.None? <==> IsBlank(s)
    ensures r.Some? ==> r.value == s
  {
    TrimSpaceBlank(s);
    if TrimSpace(s) == "" then None else Some(s)
  }

  /** The text form of the clock value `now` that flows into text columns;
    * it is never blank. */
  function Stamp(now: int): (r: string)
    ensures |r| >= 1 && !IsSpace(r[0]) && !IsBlank(r)
  {
    IntToString(now)
  }

  // -------------------------------------------------------- invariants

  /** No two active locks conflict. */
  predicate LocksConflictFree(rows: map<int, Lock>) {
    forall i, j ::
      (i in rows && j in rows && i != j && rows[i].state == "active" && rows[j].state == "active")
      ==> !ScopesConflict(rows[i].scopeType, rows[i].scopePath, rows[j].scopeType, rows[j].scopePath)
  }

  /** A session has at most one active current ref. */
  predicate OneActiveRefPerSession(rows: map<int, CurrentRef>) {
    forall i, j ::
      (i in rows && j in rows && rows[i].status == "active" && rows[j].status == "active"
       && rows[i].sessionId == rows[j].sessionId) ==> i == j
  }

  /** Checklist items are keyed by (node, order, facet). */
  predicate ChecklistKeysUnique(rows: map<int, ChecklistItem>) {
    forall i, j ::
      (i in rows && j in rows && rows[i].nodeId == rows[j].nodeId
       && rows[i].orderNo == rows[j].orderNo && rows[i].facet == rows[j].facet) ==> i == j
  }

  /** The steps of one task carry distinct order numbers. */
  predicate StepOrdersDistinct(rows: map<int, Step>) {
    forall i, j ::
      (i in rows && j in rows && i != j && rows[i].taskId == rows[j].taskId)
      ==> rows[i].orderNo != rows[j].orderNo
  }

  /** Steps and checkpoints point at existing tasks (the foreign keys of the
    * `steps` and `checkpoints` tables), and step order numbers are positive. */
  predicate TaskRowsReferenced(steps: map<int, Step>, checkpoints: map<int, Checkpoint>, tasks: map<int, Task>) {
    (forall id :: id in steps ==> steps[id].taskId in tasks && steps[id].orderNo >= 1)
    && (forall id :: id in checkpoints ==> checkpoints[id].taskId in tasks)
  }

  /** The merge lock is either held (holder and lease set) or free (both
    * cleared). */
  predicate MergeLockConsistent(l: MergeLock) {
    (l.state == "locked" && l.holder.Some? && l.leaseUntil.Some?)
    || (l.state == "unlocked" && l.holder.None? && l.leaseUntil.None?)
  }

  class Store {
    var tasks: Table<Task>
    var steps: Table<Step>
    var checkpoints: Table<Checkpoint>
    var locks: Table<Lock>
    var worktrees: Table<Worktree>
    var sessions: Table<Session>
    var refs: Table<CurrentRef>
    var queue: Table<QueueItem>
    var mergeLock: MergeLock
    var threads: Table<Thread>
    var reviewJobs: Table<ReviewJob>
    var prereqEvents: Table<PrereqEvent>
    var nodes: Table<GraphNode>
    var edges: Table<GraphEdge>
    var checklist: Table<ChecklistItem>
    var snapshots: Table<NodeSnapshot>
    var inbox: Table<InboxMessage>
    /** `mirror_meta`: the store's change counter, the version last written
      * to the markdown mirror, its path and the row's update time. */
    var dbVersion: nat
    var mdVersion: nat
    var mdPath: string
    var mirrorUpdatedAt: int

    /** Every table's ids lie within its id counter. */
    predicate TablesValid()
      reads this
    {
      tasks.Valid() && steps.Valid() && checkpoints.Valid() && locks.Valid()
      && worktrees.Valid() && sessions.Valid() && refs.Valid() && queue.Valid()
      && threads.Valid() && reviewJobs.Valid() && prereqEvents.Valid() && nodes.Valid()
      && edges.Valid() && checklist.Valid() && snapshots.Valid() && inbox.Valid()
    }

    /** Cross-row invariants. Only `TaskRowsReferenced` is declared by the
      * SQL schema (the foreign keys of steps and checkpoints); the schema has
      * no unique index, and the store's own code keeps the other invariants
      * by looking rows up before it inserts or updates them. */
    predicate RowsConsistent()
      reads this
    {
      LocksConflictFree(locks.rows)
      && OneActiveRefPerSession(refs.rows)
      && ChecklistKeysUnique(checklist.rows)
      && StepOrdersDistinct(steps.rows)
      && TaskRowsReferenced(steps.rows, checkpoints.rows, tasks.rows)
      && MergeLockConsistent(mergeLock)
      && mdVersion <= dbVersion
    }

    /** The store invariant. Compared with `true` so that the verifier keeps
      * it as one fact rather than splitting it into its many conjuncts at
      * every method that requires and ensures it. */
    predicate Valid()
      reads this
    {
      (TablesValid() && RowsConsistent()) == true
    }

    /** A freshly migrated store: empty tables, a free merge lock, and both
      * mirror versions at 0. */
    constructor (now: int)
      ensures Valid()
      ensures tasks.rows == map[] && locks.rows == map[] && sessions.rows == map[]
      ensures refs.rows == map[] && queue.rows == map[] && threads.rows == map[]
      ensures nodes.rows == map[] && checklist.rows == map[] && inbox.rows == map[]
      ensures mergeLock == MergeLock(None, None, "unlocked", now)
      ensures dbVersion == 0 && mdVersion == 0 && mdPath == ""
    {
      tasks := EmptyTable();
      steps := EmptyTable();
      checkpoints := EmptyTable();
      locks := EmptyTable();
      worktrees := EmptyTable();
      sessions := EmptyTable();
      refs := EmptyTable();
      queue := EmptyTable();
      mergeLock := MergeLock(None, None, "unlocked", now);
      threads := EmptyTable();
      reviewJobs := EmptyTable();
      prereqEvents := EmptyTable();
      nodes := EmptyTable();
      edges := EmptyTable();
      checklist := EmptyTable();
      snapshots := EmptyTable();
      inbox := EmptyTable();
      dbVersion := 0;
      mdVersion := 0;
      mdPath := "";
      mirrorUpdatedAt := now;
    }

    /** A committed mutation: `db_version` went up by exactly one. */
    twostate predicate Bumped(now: int)
      reads this
    {
      dbVersion == old(dbVersion) + 1 && mirrorUpdatedAt == now
    }

    /** A rolled-back or read-only call: the mirror counters are as before. */
    twostate predicate NotBumped()
      reads this
    {
      dbVersion == old(dbVersion) && mirrorUpdatedAt == old(mirrorUpdatedAt)
    }

    /** `bumpVersionTx`: every committed mutation raises `db_version` by one. */
    method BumpVersion(now: int)
      requires Valid()
      modifies this`dbVersion, this`mirrorUpdatedAt
      ensures Valid() && Bumped(now)
    {
      dbVersion := dbVersion + 1;
      mirrorUpdatedAt := now;
    }

    // Row writes. Each keeps `Valid()`; the table-specific invariants become
    // preconditions where a write could break them.

    method InsertTask(row: Task) returns (id: int)
      requires Valid()
      modifies this`tasks
      ensures Valid() && id == old(tasks.lastId) + 1 && id !in old(tasks.rows) && tasks == old(tasks).Insert(row)
    {
      InsertFresh(tasks, row);
      id := tasks.lastId + 1;
      tasks := tasks.Insert(row);
    }

    method InsertWorktree(row: Worktree) returns (id: int)
      requires Valid()
      modifies this`worktrees
      ensures Valid() && id == old(worktrees.lastId) + 1 && id !in old(worktrees.rows) && worktrees == old(worktrees).Insert(row)
    {
      InsertFresh(worktrees, row);
      id := worktrees.lastId + 1;
      worktrees := worktrees.Insert(row);
    }

    method PutWorktree(id: int, row: Worktree)
      requires Valid() && id in worktrees.rows
      modifies this`worktrees
      ensures Valid() && worktrees == old(worktrees).Put(id, row)
    {
      worktrees := worktrees.Put(id, row);
    }

    method InsertSession(row: Session) returns (id: int)
      requires Valid()
      modifies this`sessions
      ensures Valid() && id == old(sessions.lastId) + 1 && id !in old(sessions.rows) && sessions == old(sessions).Insert(row)
    {
      InsertFresh(sessions, row);
      id := sessions.lastId + 1;
      sessions := sessions.Insert(row);
    }

    method PutSession(id: int, row: Session)
      requires Valid() && id in sessions.rows
      modifies this`sessions
      ensures Valid() && sessions == old(sessions).Put(id, row)
    {
      sessions := sessions.Put(id, row);
    }

    method InsertQueueItem(row: QueueItem) returns (id: int)
      requires Valid()
      modifies this`queue
      ensures Valid() && id == old(queue.lastId) + 1 && id !in old(queue.rows) && queue == old(queue).Insert(row)
    {
      InsertFresh(queue, row);
      id := queue.lastId + 1;
      queue := queue.Insert(row);
    }

    method PutQueueItem(id: int, row: QueueItem)
      requires Valid() && id in queue.rows
      modifies this`queue
      ensures Valid() && queue == old(queue).Put(id, row)
    {
      queue := queue.Put(id, row);
    }

    method InsertThread(row: Thread) returns (id: int)
      requires Valid()
      modifies this`threads
      ensures Valid() && id == old(threads.lastId) + 1 && id !in old(threads.rows) && threads == old(threads).Insert(row)
    {
      InsertFresh(threads, row);
      id := threads.lastId + 1;
      threads := threads.Insert(row);
    }

    method PutThread(id: int, row: Thread)
      requires Valid() && id in threads.rows
      modifies this`threads
      ensures Valid() && threads == old(threads).Put(id, row)
    {
      threads := threads.Put(id, row);
    }

    method InsertReviewJob(row: ReviewJob) returns (id: int)
      requires Valid()
      modifies this`reviewJobs
      ensures Valid() && id == old(reviewJobs.lastId) + 1 && id !in old(reviewJobs.rows) && reviewJobs == old(reviewJobs).Insert(row)
    {
      InsertFresh(reviewJobs, row);
      id := reviewJobs.lastId + 1;
      reviewJobs := reviewJobs.Insert(row);
    }

    method PutReviewJob(id: int, row: ReviewJob)
      requires Valid() && id in reviewJobs.rows
      modifies this`reviewJobs
      ensures Valid() && reviewJobs == old(reviewJobs).Put(id, row)
    {
      reviewJobs := reviewJobs.Put(id, row);
    }

    method InsertPrereqEvent(row: PrereqEvent) returns (id: int)
      requires Valid()
      modifies this`prereqEvents
      ensures Valid() && id == old(prereqEvents.lastId) + 1 && id !in old(prereqEvents.rows) && prereqEvents == old(prereqEvents).Insert(row)
    {
      InsertFresh(prereqEvents, row);
      id := prereqEvents.lastId + 1;
      prereqEvents := prereqEvents.Insert(row);
    }

    method InsertGraphNode(row: GraphNode) returns (id: int)
      requires Valid()
      modifies this`nodes
      ensures Valid() && id == old(nodes.lastId) + 1 && id !in old(nodes.rows) && nodes == old(nodes).Insert(row)
    {
      InsertFresh(nodes, row);
      id := nodes.lastId + 1;
      nodes := nodes.Insert(row);
    }

    method PutGraphNode(id: int, row: GraphNode)
      requires Valid() && id in nodes.rows
      modifies this`nodes
      ensures Valid() && nodes == old(nodes).Put(id, row)
    {
      nodes := nodes.Put(id, row);
    }

    method InsertGraphEdge(row: GraphEdge) returns (id: int)
      requires Valid()
      modifies this`edges
      ensures Valid() && id == old(edges.lastId) + 1 && id !in old(edges.rows) && edges == old(edges).Insert(row)
    {
      InsertFresh(edges, row);
      id := edges.lastId + 1;
      edges := edges.Insert(row);
    }

    method InsertNodeSnapshot(row: NodeSnapshot) returns (id: int)
      requires Valid()
      modifies this`snapshots
      ensures Valid() && id == old(snapshots.lastId) + 1 && id !in old(snapshots.rows) && snapshots == old(snapshots).Insert(row)
    {
      InsertFresh(snapshots, row);
      id := snapshots.lastId + 1;
      snapshots := snapshots.Insert(row);
    }

    method InsertInboxMessage(row: InboxMessage) returns (id: int)
      requires Valid()
      modifies this`inbox
      ensures Valid() && id == old(inbox.lastId) + 1 && id !in old(inbox.rows) && inbox == old(inbox).Insert(row)
    {
      InsertFresh(inbox, row);
      id := inbox.lastId + 1;
      inbox := inbox.Insert(row);
    }

    method PutInboxMessage(id: int, row: InboxMessage)
      requires Valid() && id in inbox.rows
      modifies this`inbox
      ensures Valid() && inbox == old(inbox).Put(id, row)
    {
      inbox := inbox.Put(id, row);
    }

    method PutTask(id: int, row: Task)
      requires Valid() && id in tasks.rows
      modifies this`tasks
      ensures Valid() && tasks == old(tasks).Put(id, row)
    {
      tasks := tasks.Put(id, row);
    }

    method InsertStep(row: Step) returns (id: int)
      requires Valid() && row.taskId in tasks.rows && row.orderNo >= 1
      requires forall k :: k in steps.rows && steps.rows[k].taskId == row.taskId ==> steps.rows[k].orderNo < row.orderNo
      modifies this`steps
      ensures Valid() && id == old(steps.lastId) + 1 && steps == old(steps).Insert(row)
      ensures id in steps.rows && steps.rows[id] == row
      ensures tasks == old(tasks)
    {
      InsertFresh(steps, row);
      id := steps.lastId + 1;
      steps := steps.Insert(row);
    }

    method InsertCheckpoint(row: Checkpoint) returns (id: int)
      requires Valid() && row.taskId in tasks.rows
      modifies this`checkpoints
      ensures Valid() && id == old(checkpoints.lastId) + 1 && checkpoints == old(checkpoints).Insert(row)
      ensures tasks == old(tasks) && steps == old(steps)
    {
      InsertFresh(checkpoints, row);
      id := checkpoints.lastId + 1;
      checkpoints := checkpoints.Insert(row);
    }

    method SetLocks(t: Table<Lock>)
      requires Valid() && t.Valid() && LocksConflictFree(t.rows)
      modifies this`locks
      ensures Valid() && locks == t
    {
      locks := t;
    }

    method SetRefs(t: Table<CurrentRef>)
      requires Valid() && t.Valid() && OneActiveRefPerSession(t.rows)
      modifies this`refs
      ensures Valid() && refs == t
    {
      refs := t;
    }

    method SetChecklist(t: Table<ChecklistItem>)
      requires Valid() && t.Valid() && ChecklistKeysUnique(t.rows)
      modifies this`checklist
      ensures Valid() && checklist == t
    {
      checklist := t;
    }

    method SetMergeLock(l: MergeLock)
      requires Valid() && MergeLockConsistent(l)
      modifies this`mergeLock
      ensures Valid() && mergeLock == l
    {
      mergeLock := l;
    }
  }
}
