/** Task, case, step, lock, worktree-record and mirror operations of the
  * state store. Each method is one transaction: it either fails and leaves
  * every table as it was, or applies its update and bumps `db_version`. */
module CoreStore {
  import opened Text
  import opened ScopePaths
  import opened StoreSchema

  const DefaultLockTtlSeconds := 600

  // ---------------------------------------------------------------- tasks

  datatype TaskCreateArgs = TaskCreateArgs(
    level: string, parentId: Option<int>, title: string, priority: int, assignee: string)

  /** `CreateTask`: level and title must be non-blank; the level is stored
    * trimmed, the title as given, and every task starts as "todo". */
  method CreateTask(st: Store, args: TaskCreateArgs, now: int) returns (r: Result<int>)
    requires st.Valid()
    modifies st`tasks, st`dbVersion, st`mirrorUpdatedAt
    ensures st.Valid()
    ensures IsBlank(args.level) ==> r == Err("level is required")
    ensures !IsBlank(args.level) && IsBlank(args.title) ==> r == Err("title is required")
    ensures r.Err? ==> st.tasks == old(st.tasks) && st.NotBumped()
    ensures r.Ok? <==> !IsBlank(args.level) && !IsBlank(args.title)
    ensures r.Ok? ==>
      r.value == old(st.tasks.lastId) + 1 && r.value !in old(st.tasks.rows)
      && st.tasks == old(st.tasks).Insert(Task(TrimSpace(args.level), args.parentId, args.title, "todo",
           args.priority, NullableText(args.assignee), None, None, None, now, now))
      && st.Bumped(now)
  {
    TrimSpaceBlank(args.level);
    TrimSpaceBlank(args.title);
    if TrimSpace(args.level) == "" {
      return Err("level is required");
    }
    if TrimSpace(args.title) == "" {
      return Err("title is required");
    }
    var task := Task(TrimSpace(args.level), args.parentId, args.title, "todo", args.priority,
                     NullableText(args.assignee), None, None, None, now, now);
    var id := st.InsertTask(task);
    st.BumpVersion(now);
    r := Ok(id);
  }

  /** The row `UPDATE tasks ... WHERE id = ? AND level = 'case'` matches. */
  predicate IsCaseTask(tasks: map<int, Task>, id: int) {
    id in tasks && tasks[id].level == "case"
  }

  /** `BeginCase`: a case task becomes "in_progress" with its input contract
    * ("{}" when none is given) and fixtures, and a "case.begin" checkpoint is
    * recorded; any other id fails with "case task not found". */
  method BeginCase(st: Store, taskId: int, inputContract: string, fixtures: string, now: int)
    returns (r: Result<Task>)
    requires st.Valid()
    modifies st`tasks, st`checkpoints, st`dbVersion, st`mirrorUpdatedAt
    ensures st.Valid()
    ensures !IsCaseTask(old(st.tasks.rows), taskId) ==> r == Err("case task not found: " + IntToString(taskId))
    ensures r.Err? ==> st.tasks == old(st.tasks) && st.checkpoints == old(st.checkpoints) && st.NotBumped()
    ensures r.Ok? <==> IsCaseTask(old(st.tasks.rows), taskId)
    ensures r.Ok? ==>
      var contract := if |inputContract| > 0 then inputContract else "{}";
      r.value == old(st.tasks.rows[taskId]).(status := "in_progress", inputContract := Some(contract),
                                             fixtures := Some(fixtures), updatedAt := now)
      && st.tasks == old(st.tasks).Put(taskId, r.value)
      && st.checkpoints == old(st.checkpoints).Insert(Checkpoint(taskId, "case.begin", CaseBegin(contract, fixtures), now))
      && st.Bumped(now)
  {
    if !IsCaseTask(st.tasks.rows, taskId) {
      return Err("case task not found: " + IntToString(taskId));
    }
    var contract := if |inputContract| > 0 then inputContract else "{}";
    var task := st.tasks.rows[taskId].(status := "in_progress", inputContract := Some(contract),
                                       fixtures := Some(fixtures), updatedAt := now);
    st.PutTask(taskId, task);
    var _ := st.InsertCheckpoint(Checkpoint(taskId, "case.begin", CaseBegin(contract, fixtures), now));
    st.BumpVersion(now);
    r := Ok(task);
  }

  /** The largest order number among the steps of `taskId` with id at most
    * `hi`, or 0 when there are none (`COALESCE(MAX(order_no), 0)`). */
  function MaxOrderNo(steps: map<int, Step>, taskId: int, hi: int): (m: int)
    ensures m >= 0
    ensures forall id :: id in steps && 1 <= id <= hi && steps[id].taskId == taskId ==> steps[id].orderNo <= m
    decreases hi
  {
    if hi < 1 then 0
    else
      var rest := MaxOrderNo(steps, taskId, hi - 1);
      if hi in steps && steps[hi].taskId == taskId && steps[hi].orderNo > rest then steps[hi].orderNo else rest
  }

  /** With order numbers that are all positive, the maximum is 0 exactly when
    * that task has no steps. */
  lemma {:induction false} MaxOrderNoZero(steps: map<int, Step>, taskId: int, hi: int)
    requires forall id :: id in steps ==> steps[id].orderNo >= 1
    ensures MaxOrderNo(steps, taskId, hi) == 0 <==> forall id :: id in steps && 1 <= id <= hi ==> steps[id].taskId != taskId
    decreases hi
  {
    if hi >= 1 {
      MaxOrderNoZero(steps, taskId, hi - 1);
    }
  }

  /** The order number `AddStepCheck` gives a new step of `taskId`: one past
    * the highest in use, so it exceeds every existing one of that task. */
  function NextOrderNo(steps: Table<Step>, taskId: int): (n: int)
    requires steps.Valid()
    ensures n >= 1
    ensures forall id :: id in steps.rows && steps.rows[id].taskId == taskId ==> steps.rows[id].orderNo < n
  {
    MaxOrderNo(steps.rows, taskId, steps.lastId) + 1
  }

  datatype StepCheckArgs = StepCheckArgs(taskId: int, stepTitle: string, result: string, artifacts: seq<string>)

  /** `AddStepCheck`: rejects a blank step title or result; otherwise records a
    * "done" step numbered one past that task's highest order number, and a
    * checkpoint titled after the step. A task that does not exist violates the
    * steps table's foreign key. */
  method AddStepCheck(st: Store, args: StepCheckArgs, now: int) returns (r: Result<int>)
    requires st.Valid()
    modifies st`steps, st`checkpoints, st`dbVersion, st`mirrorUpdatedAt
    ensures st.Valid()
    ensures IsBlank(args.stepTitle) ==> r == Err("step_title is required")
    ensures !IsBlank(args.stepTitle) && IsBlank(args.result) ==> r == Err("result is required")
    ensures r.Err? ==> st.steps == old(st.steps) && st.checkpoints == old(st.checkpoints) && st.NotBumped()
    ensures r.Ok? <==> !IsBlank(args.stepTitle) && !IsBlank(args.result) && args.taskId in st.tasks.rows
    ensures r.Ok? ==>
      var orderNo := NextOrderNo(old(st.steps), args.taskId);
      r.value == old(st.steps.lastId) + 1
      && st.steps == old(st.steps).Insert(Step(args.taskId, args.stepTitle, "done", args.result, args.artifacts, orderNo, now))
      && st.checkpoints == old(st.checkpoints).Insert(
           Checkpoint(args.taskId, args.stepTitle, StepCheck(args.stepTitle, args.result, args.artifacts), now))
      && st.Bumped(now)
    ensures r.Ok? ==> forall id :: (id in old(st.steps.rows) && old(st.steps.rows[id]).taskId == args.taskId
      ==> old(st.steps.rows[id]).orderNo < st.steps.rows[r.value].orderNo)
  {
    TrimSpaceBlank(args.stepTitle);
    TrimSpaceBlank(args.result);
    if TrimSpace(args.stepTitle) == "" {
      return Err("step_title is required");
    }
    if TrimSpace(args.result) == "" {
      return Err("result is required");
    }
    if args.taskId !in st.tasks.rows {
      return Err("FOREIGN KEY constraint failed");
    }
    var id := RecordStepCheck(st, args, now);
    r := Ok(id);
  }

  /** The writes of an accepted `AddStepCheck`: the step, then its checkpoint. */
  method RecordStepCheck(st: Store, args: StepCheckArgs, now: int) returns (id: int)
    requires st.Valid() && args.taskId in st.tasks.rows
    modifies st`steps, st`checkpoints, st`dbVersion, st`mirrorUpdatedAt
    ensures st.Valid()
    ensures var orderNo := NextOrderNo(old(st.steps), args.taskId);
      id == old(st.steps.lastId) + 1
      && st.steps == old(st.steps).Insert(Step(args.taskId, args.stepTitle, "done", args.result, args.artifacts, orderNo, now))
      && st.checkpoints == old(st.checkpoints).Insert(
           Checkpoint(args.taskId, args.stepTitle, StepCheck(args.stepTitle, args.result, args.artifacts), now))
      && st.Bumped(now)
    ensures id in st.steps.rows && st.steps.rows[id].orderNo == NextOrderNo(old(st.steps), args.taskId)
  {
    var orderNo := NextOrderNo(st.steps, args.taskId);
    var step := Step(args.taskId, args.stepTitle, "done", args.result, args.artifacts, orderNo, now);
    id := st.InsertStep(step);
    var _ := st.InsertCheckpoint(
      Checkpoint(args.taskId, args.stepTitle, StepCheck(args.stepTitle, args.result, args.artifacts), now));
    st.BumpVersion(now);
  }

  /** `CompleteCase`: a case task becomes "done" with its next action (NULL
    * when blank), and a "case.complete" checkpoint is recorded. */
  method CompleteCase(st: Store, taskId: int, summary: string, nextAction: string, now: int)
    returns (r: Result<Task>)
    requires st.Valid()
    modifies st`tasks, st`checkpoints, st`dbVersion, st`mirrorUpdatedAt
    ensures st.Valid()
    ensures !IsCaseTask(old(st.tasks.rows), taskId) ==> r == Err("case task not found: " + IntToString(taskId))
    ensures r.Err? ==> st.tasks == old(st.tasks) && st.checkpoints == old(st.checkpoints) && st.NotBumped()
    ensures r.Ok? <==> IsCaseTask(old(st.tasks.rows), taskId)
    ensures r.Ok? ==>
      r.value == old(st.tasks.rows[taskId]).(status := "done", nextAction := NullableText(nextAction), updatedAt := now)
      && st.tasks == old(st.tasks).Put(taskId, r.value)
      && st.checkpoints == old(st.checkpoints).Insert(
           Checkpoint(taskId, "case.complete", CaseComplete(summary, nextAction), now))
      && st.Bumped(now)
  {
    if !IsCaseTask(st.tasks.rows, taskId) {
      return Err("case task not found: " + IntToString(taskId));
    }
    var task := RecordCompletion(st, taskId, summary, nextAction, now);
    r := Ok(task);
  }

  /** The writes of an accepted `CompleteCase`: the updated task, then its
    * checkpoint. */
  method RecordCompletion(st: Store, taskId: int, summary: string, nextAction: string, now: int)
    returns (task: Task)
    requires st.Valid() && taskId in st.tasks.rows
    modifies st`tasks, st`checkpoints, st`dbVersion, st`mirrorUpdatedAt
    ensures st.Valid()
    ensures task == old(st.tasks.rows[taskId]).(status := "done", nextAction := NullableText(nextAction), updatedAt := now)
    ensures st.tasks == old(st.tasks).Put(taskId, task)
    ensures st.checkpoints == old(st.checkpoints).Insert(Checkpoint(taskId, "case.complete", CaseComplete(summary, nextAction), now))
    ensures st.Bumped(now)
  {
    task := st.tasks.rows[taskId].(status := "done", nextAction := NullableText(nextAction), updatedAt := now);
    st.PutTask(taskId, task);
    var _ := st.InsertCheckpoint(Checkpoint(taskId, "case.complete", CaseComplete(summary, nextAction), now));
    st.BumpVersion(now);
  }

  // ------------------------------------------------------- resume order

  /** A case that `ResumeNextCase` may pick. */
  predicate IsOpenCase(t: Task) {
    t.level == "case" && (t.status == "in_progress" || t.status == "blocked" || t.status == "todo")
  }

  function StatusRank(status: string): int {
    if status == "in_progress" then 0 else if status == "blocked" then 1 else 2
  }

  /** `a` sorts strictly before `b`: by status rank, then higher priority,
    * then older update time. */
  predicate CaseBefore(a: Task, b: Task) {
    StatusRank(a.status) < StatusRank(b.status)
    || (StatusRank(a.status) == StatusRank(b.status) && a.priority > b.priority)
    || (StatusRank(a.status) == StatusRank(b.status) && a.priority == b.priority && a.updatedAt < b.updatedAt)
  }

  /** The first open case in `ResumeNextCase`'s order among ids `1..hi`. */
  function NextCase(tasks: map<int, Task>, hi: int): (r: Option<int>)
    ensures r.Some? ==> 1 <= r.value <= hi && r.value in tasks && IsOpenCase(tasks[r.value])
    ensures r.Some? ==> forall id :: (1 <= id <= hi && id in tasks && IsOpenCase(tasks[id])
      ==> !CaseBefore(tasks[id], tasks[r.value]))
    ensures r.None? ==> forall id :: 1 <= id <= hi && id in tasks ==> !IsOpenCase(tasks[id])
    decreases hi
  {
    if hi < 1 then None
    else
      var prev := NextCase(tasks, hi - 1);
      if hi in tasks && IsOpenCase(tasks[hi]) && (prev.None? || CaseBefore(tasks[hi], tasks[prev.value]))
      then Some(hi)
      else prev
  }

  /** `GetLatestCheckpoint`: a task's checkpoint with the largest id. */
  function LatestCheckpoint(checkpoints: Table<Checkpoint>, taskId: int): (r: Option<int>)
    requires checkpoints.Valid()
    ensures r.Some? ==> r.value in checkpoints.rows && checkpoints.rows[r.value].taskId == taskId
    ensures r.Some? ==> forall id :: id in checkpoints.rows && checkpoints.rows[id].taskId == taskId ==> id <= r.value
    ensures r.None? ==> forall id :: id in checkpoints.rows ==> checkpoints.rows[id].taskId != taskId
  {
    LastId(checkpoints.rows, (c: Checkpoint) => c.taskId == taskId, 1, checkpoints.lastId)
  }

  /** `ResumeNextCase`: the open case to resume (in_progress before blocked
    * before todo, then by priority and age) and its latest checkpoint; none
    * when no case is open. */
  function ResumeNextCase(st: Store): (r: (Option<int>, Option<int>))
    reads st
    requires st.Valid()
    ensures r.0.None? ==> r.1.None? && forall id :: id in st.tasks.rows ==> !IsOpenCase(st.tasks.rows[id])
    ensures r.0.Some? ==> r.0.value in st.tasks.rows && IsOpenCase(st.tasks.rows[r.0.value])
    ensures r.0.Some? ==> forall id :: (id in st.tasks.rows && IsOpenCase(st.tasks.rows[id])
      ==> !CaseBefore(st.tasks.rows[id], st.tasks.rows[r.0.value]))
    ensures r.0.Some? ==> r.1 == LatestCheckpoint(st.checkpoints, r.0.value)
  {
    var next := NextCase(st.tasks.rows, st.tasks.lastId);
    if next.None? then (None, None) else (next, LatestCheckpoint(st.checkpoints, next.value))
  }

  // ---------------------------------------------------------------- locks

  datatype LockAcquireArgs = LockAcquireArgs(scopeType: string, scopePath: string, owner: string, ttlSeconds: int)

  /** A lock request after `AcquireLock`'s normalisation. */
  datatype LockRequest = LockRequest(scopeType: string, scopePath: string, owner: string, ttlSeconds: int)

  /** The validation and defaulting `AcquireLock` performs before it touches
    * the table: the scope type must be prefix or file (after lower-casing and
    * trimming), the normalised path and the trimmed owner non-blank, and a
    * non-positive TTL becomes 600 seconds. */
  function ValidateLock(args: LockAcquireArgs): (r: Result<LockRequest>)
    ensures var t := TrimSpace(ToLower(args.scopeType));
      (t != "prefix" && t != "file" ==> r == Err("scope_type must be one of: prefix, file"))
      && (t in {"prefix", "file"} && NormalizeScopePath(args.scopePath) == "" ==> r == Err("scope_path is required"))
      && (t in {"prefix", "file"} && NormalizeScopePath(args.scopePath) != "" && IsBlank(args.owner)
          ==> r == Err("owner_session is required"))
    ensures r.Ok? ==>
      r.value.scopeType in {"prefix", "file"} && r.value.scopePath != ""
      && r.value.scopePath == NormalizeScopePath(args.scopePath)
      && r.value.owner == TrimSpace(args.owner) && r.value.owner != ""
      && r.value.ttlSeconds == (if args.ttlSeconds <= 0 then DefaultLockTtlSeconds else args.ttlSeconds)
      && r.value.ttlSeconds > 0
    ensures r.Ok? <==>
      TrimSpace(ToLower(args.scopeType)) in {"prefix", "file"}
      && NormalizeScopePath(args.scopePath) != "" && !IsBlank(args.owner)
  {
    var t := TrimSpace(ToLower(args.scopeType));
    var p := NormalizeScopePath(args.scopePath);
    var o := TrimSpace(args.owner);
    TrimSpaceBlank(args.owner);
    if t != "prefix" && t != "file" then Err("scope_type must be one of: prefix, file")
    else if p == "" then Err("scope_path is required")
    else if o == "" then Err("owner_session is required")
    else Ok(LockRequest(t, p, o, if args.ttlSeconds <= 0 then DefaultLockTtlSeconds else args.ttlSeconds))
  }

  /** `UPDATE locks SET state = 'expired' WHERE state = 'active' AND
    * lease_until < now`. */
  function ExpireLocks(rows: map<int, Lock>, now: int): (r: map<int, Lock>)
    ensures r.Keys == rows.Keys
    ensures forall id :: id in r && r[id].state == "active" ==> r[id].leaseUntil >= now
    ensures forall id :: id in rows && !(rows[id].state == "active" && rows[id].leaseUntil < now) ==> r[id] == rows[id]
  {
    map id | id in rows :: if rows[id].state == "active" && rows[id].leaseUntil < now then rows[id].(state := "expired") else rows[id]
  }

  /** Row `k` is an active lock that overlaps the requested scope. */
  predicate Blocks(rows: map<int, Lock>, k: int, scopeType: string, scopePath: string) {
    k in rows && rows[k].state == "active" && ScopesConflict(scopeType, scopePath, rows[k].scopeType, rows[k].scopePath)
  }

  /** Some active lock in `rows` overlaps the requested scope. */
  predicate ConflictsWithActive(rows: map<int, Lock>, scopeType: string, scopePath: string) {
    exists id :: id in rows && Blocks(rows, id, scopeType, scopePath)
  }

  /** Changing leases or retiring locks, with scopes untouched, cannot create
    * a conflict between active locks. */
  lemma RetireKeepsConflictFree(before: map<int, Lock>, after: map<int, Lock>)
    requires LocksConflictFree(before)
    requires after.Keys <= before.Keys
    requires forall id :: id in after ==>
      after[id].scopeType == before[id].scopeType
      && after[id].scopePath == before[id].scopePath
      && (after[id].state == "active" ==> before[id].state == "active")
    ensures LocksConflictFree(after)
  {
  }

  /** Adding one lock that overlaps no active lock keeps active locks
    * pairwise non-conflicting. */
  lemma AddLockKeepsConflictFree(rows: map<int, Lock>, id: int, l: Lock)
    requires LocksConflictFree(rows) && id !in rows
    requires !ConflictsWithActive(rows, l.scopeType, l.scopePath)
    ensures LocksConflictFree(rows[id := l])
  {
    forall k | k in rows && rows[k].state == "active"
      ensures !ScopesConflict(rows[k].scopeType, rows[k].scopePath, l.scopeType, l.scopePath)
    {
      ScopesConflictSymmetric(rows[k].scopeType, rows[k].scopePath, l.scopeType, l.scopePath);
    }
  }

  /** The scan of `AcquireLock` over the active locks: the first (lowest id)
    * active lock that overlaps the requested scope, or none when no active
    * lock does. */
  method FindConflict(locks: Table<Lock>, scopeType: string, scopePath: string) returns (c: Option<int>)
    requires locks.Valid()
    ensures c.None? <==> !ConflictsWithActive(locks.rows, scopeType, scopePath)
    ensures c.Some? ==> Blocks(locks.rows, c.value, scopeType, scopePath)
    ensures c.Some? ==> forall k :: k < c.value ==> !Blocks(locks.rows, k, scopeType, scopePath)
  {
    var blocks := k => Blocks(locks.rows, k, scopeType, scopePath);
    c := FirstMatch(locks.lastId, blocks);
    if c.None? {
      forall k | 1 <= k <= locks.lastId
        ensures !Blocks(locks.rows, k, scopeType, scopePath)
      {
        assert !blocks(k);
      }
      ScannedAll(locks, scopeType, scopePath);
    } else {
      assert blocks(c.value);
      forall k | k < c.value
        ensures !Blocks(locks.rows, k, scopeType, scopePath)
      {
        if 1 <= k {
          assert !blocks(k);
        }
      }
    }
  }

  /** The scan itself: the first id in `1..n` that satisfies `p`. */
  method FirstMatch(n: int, p: int -> bool) returns (c: Option<int>)
    ensures c.None? ==> forall k :: 1 <= k <= n ==> !p(k)
    ensures c.Some? ==> 1 <= c.value <= n && p(c.value)
    ensures c.Some? ==> forall k :: 1 <= k < c.value ==> !p(k)
  {
    var id := 1;
    while id <= n
      invariant 1 <= id
      invariant forall k :: 1 <= k < id ==> !p(k)
    {
      if p(id) {
        return Some(id);
      }
      id := id + 1;
    }
    return None;
  }

  /** A scan that found no conflict up to `lastId` has seen every row. */
  lemma ScannedAll(locks: Table<Lock>, scopeType: string, scopePath: string)
    requires locks.Valid()
    requires forall k :: 1 <= k <= locks.lastId ==> !Blocks(locks.rows, k, scopeType, scopePath)
    ensures !ConflictsWithActive(locks.rows, scopeType, scopePath)
  {
  }

  /** The lock row `AcquireLock` writes for a validated request. */
  function GrantedLock(q: LockRequest, now: int): (l: Lock)
    ensures l.state == "active" && l.heartbeatAt == now
    ensures l.scopeType == q.scopeType && l.scopePath == q.scopePath && l.owner == q.owner
    ensures l.leaseUntil - now == q.ttlSeconds
  {
    Lock(q.scopeType, q.scopePath, q.owner, now + q.ttlSeconds, now, "active")
  }

  /** The locks table after a successful `AcquireLock`: overdue locks
    * expired, the new lock appended under the next id. */
  function AfterGrant(t: Table<Lock>, q: LockRequest, now: int): Table<Lock> {
    Table(ExpireLocks(t.rows, now), t.lastId).Insert(GrantedLock(q, now))
  }

  /** `AcquireLock`: after validation, expires overdue locks, scans the
    * remaining active locks for a conflict, and inserts the new active lock
    * only if there is none. A conflict rolls everything back, including the
    * expiry. Active locks stay pairwise non-conflicting. */
  method AcquireLock(st: Store, args: LockAcquireArgs, now: int) returns (r: Result<int>)
    requires st.Valid()
    modifies st`locks, st`dbVersion, st`mirrorUpdatedAt
    ensures st.Valid()
    ensures r.Err? ==> st.locks == old(st.locks) && st.NotBumped()
    ensures ValidateLock(args).Err? ==> r == Err(ValidateLock(args).msg)
    ensures ValidateLock(args).Ok? ==>
      (r.Ok? <==> !ConflictsWithActive(ExpireLocks(old(st.locks.rows), now),
                                       ValidateLock(args).value.scopeType, ValidateLock(args).value.scopePath))
    ensures r.Ok? ==>
      ValidateLock(args).Ok? && r.value == old(st.locks.lastId) + 1 && st.Bumped(now)
      && st.locks == AfterGrant(old(st.locks), ValidateLock(args).value, now)
  {
    var v := ValidateLock(args);
    if v.Err? {
      return Err(v.msg);
    }
    r := GrantLock(st, v.value, now);
  }

  /** The transaction body of `AcquireLock` for a validated request. */
  method GrantLock(st: Store, q: LockRequest, now: int) returns (r: Result<int>)
    requires st.Valid()
    modifies st`locks, st`dbVersion, st`mirrorUpdatedAt
    ensures st.Valid()
    ensures r.Err? ==> st.locks == old(st.locks) && st.NotBumped()
    ensures r.Ok? <==> !ConflictsWithActive(ExpireLocks(old(st.locks.rows), now), q.scopeType, q.scopePath)
    ensures r.Ok? ==>
      r.value == old(st.locks.lastId) + 1 && st.Bumped(now)
      && st.locks == AfterGrant(old(st.locks), q, now)
  {
    var live := ExpireLocks(st.locks.rows, now);
    var expired := Table(live, st.locks.lastId);
    var conflict := FindConflict(expired, q.scopeType, q.scopePath);
    if conflict.Some? {
      var other := live[conflict.value];
      return Err("lock conflict with #" + IntToString(conflict.value) + " (" + other.scopeType + ":" + other.scopePath + ")");
    }
    var lock := GrantedLock(q, now);
    RetireKeepsConflictFree(st.locks.rows, live);
    AddLockKeepsConflictFree(live, st.locks.lastId + 1, lock);
    InsertFresh(expired, lock);
    r := Ok(st.locks.lastId + 1);
    st.SetLocks(expired.Insert(lock));
    st.BumpVersion(now);
    assert st.locks == AfterGrant(old(st.locks), q, now);
  }

  /** The row `... WHERE id = ? AND state = 'active'` matches. */
  predicate IsActiveLock(rows: map<int, Lock>, id: int) {
    id in rows && rows[id].state == "active"
  }

  /** `HeartbeatLock`: renews the lease of an active lock (a non-positive TTL
    * means 600 seconds); any other id fails with "active lock not found". */
  method HeartbeatLock(st: Store, lockId: int, ttlSeconds: int, now: int) returns (r: Result<Lock>)
    requires st.Valid()
    modifies st`locks, st`dbVersion, st`mirrorUpdatedAt
    ensures st.Valid()
    ensures r.Ok? <==> IsActiveLock(old(st.locks.rows), lockId)
    ensures r.Err? ==>
      r.msg == "active lock not found: " + IntToString(lockId)
      && st.locks == old(st.locks) && st.NotBumped()
    ensures r.Ok? ==>
      var ttl := if ttlSeconds <= 0 then DefaultLockTtlSeconds else ttlSeconds;
      r.value == old(st.locks.rows[lockId]).(heartbeatAt := now, leaseUntil := now + ttl)
      && st.locks == old(st.locks).Put(lockId, r.value) && st.Bumped(now)
  {
    if !IsActiveLock(st.locks.rows, lockId) {
      return Err("active lock not found: " + IntToString(lockId));
    }
    var ttl := if ttlSeconds <= 0 then DefaultLockTtlSeconds else ttlSeconds;
    var lock := st.locks.rows[lockId].(heartbeatAt := now, leaseUntil := now + ttl);
    RetireKeepsConflictFree(st.locks.rows, st.locks.rows[lockId := lock]);
    st.SetLocks(st.locks.Put(lockId, lock));
    st.BumpVersion(now);
    r := Ok(lock);
  }

  /** `ReleaseLock`: an active lock becomes "released" with its lease and
    * heartbeat set to now; any other id fails with "active lock not found". */
  method ReleaseLock(st: Store, lockId: int, now: int) returns (r: Result<Lock>)
    requires st.Valid()
    modifies st`locks, st`dbVersion, st`mirrorUpdatedAt
    ensures st.Valid()
    ensures r.Ok? <==> IsActiveLock(old(st.locks.rows), lockId)
    ensures r.Err? ==>
      r.msg == "active lock not found: " + IntToString(lockId)
      && st.locks == old(st.locks) && st.NotBumped()
    ensures r.Ok? ==>
      r.value == old(st.locks.rows[lockId]).(state := "released", heartbeatAt := now, leaseUntil := now)
      && st.locks == old(st.locks).Put(lockId, r.value) && st.Bumped(now)
  {
    if !IsActiveLock(st.locks.rows, lockId) {
      return Err("active lock not found: " + IntToString(lockId));
    }
    var lock := st.locks.rows[lockId].(state := "released", heartbeatAt := now, leaseUntil := now);
    RetireKeepsConflictFree(st.locks.rows, st.locks.rows[lockId := lock]);
    st.SetLocks(st.locks.Put(lockId, lock));
    st.BumpVersion(now);
    r := Ok(lock);
  }

  /** `ListActiveLocks`: commits the expiry of overdue locks (without bumping
    * `db_version`) and lists the ids of the remaining active locks in
    * ascending order. */
  method ListActiveLocks(st: Store, now: int) returns (ids: seq<int>)
    requires st.Valid()
    modifies st`locks
    ensures st.Valid()
    ensures st.locks == Table(ExpireLocks(old(st.locks.rows), now), old(st.locks.lastId))
    ensures forall i :: 0 <= i < |ids| ==> IsActiveLock(st.locks.rows, ids[i]) && st.locks.rows[ids[i]].leaseUntil >= now
    ensures forall id :: IsActiveLock(st.locks.rows, id) ==> id in ids
    ensures forall i, j :: 0 <= i < j < |ids| ==> ids[i] < ids[j]
  {
    var live := ExpireLocks(st.locks.rows, now);
    RetireKeepsConflictFree(st.locks.rows, live);
    st.SetLocks(Table(live, st.locks.lastId));
    ids := SelectIds(st.locks, (l: Lock) => l.state == "active");
  }

  // ------------------------------------------------------------ worktrees

  datatype WorktreeCreateArgs = WorktreeCreateArgs(
    taskId: int, path: string, branch: string, status: string, kind: string,
    parent: Option<int>, ownerSession: Option<int>, mergeState: string)

  /** The row `CreateWorktreeRecord` stores: blank status, kind and merge state
    * default to "planned", "task_branch" and "active"; everything else is kept
    * as given (not trimmed). */
  function WorktreeRow(args: WorktreeCreateArgs, now: int): (w: Worktree)
    ensures w.path == args.path && w.branch == args.branch
    ensures (IsBlank(args.status) ==> w.status == "planned") && (!IsBlank(args.status) ==> w.status == args.status)
    ensures (IsBlank(args.kind) ==> w.kind == "task_branch") && (!IsBlank(args.kind) ==> w.kind == args.kind)
    ensures (IsBlank(args.mergeState) ==> w.mergeState == "active")
      && (!IsBlank(args.mergeState) ==> w.mergeState == args.mergeState)
    ensures w.mergedAt.None?
  {
    Worktree(args.taskId, args.path, args.branch, OrDefault(args.status, "planned"),
             OrDefault(args.kind, "task_branch"), args.parent, args.ownerSession,
             OrDefault(args.mergeState, "active"), now, None)
  }

  /** `CreateWorktreeRecord`: path and branch must be non-blank. */
  method CreateWorktreeRecord(st: Store, args: WorktreeCreateArgs, now: int) returns (r: Result<int>)
    requires st.Valid()
    modifies st`worktrees, st`dbVersion, st`mirrorUpdatedAt
    ensures st.Valid() && st.sessions == old(st.sessions)
    ensures IsBlank(args.path) ==> r == Err("path is required")
    ensures !IsBlank(args.path) && IsBlank(args.branch) ==> r == Err("branch is required")
    ensures r.Ok? <==> !IsBlank(args.path) && !IsBlank(args.branch)
    ensures r.Err? ==> st.worktrees == old(st.worktrees) && st.NotBumped()
    ensures r.Ok? ==>
      r.value == old(st.worktrees.lastId) + 1 && r.value !in old(st.worktrees.rows)
      && st.worktrees == old(st.worktrees).Insert(WorktreeRow(args, now)) && st.Bumped(now)
  {
    TrimSpaceBlank(args.path);
    TrimSpaceBlank(args.branch);
    if TrimSpace(args.path) == "" {
      r := Err("path is required");
    } else if TrimSpace(args.branch) == "" {
      r := Err("branch is required");
    } else {
      var id := InsertWorktreeRow(st, WorktreeRow(args, now), now);
      r := Ok(id);
    }
  }

  /** The write of an accepted `CreateWorktreeRecord`. */
  method InsertWorktreeRow(st: Store, row: Worktree, now: int) returns (id: int)
    requires st.Valid()
    modifies st`worktrees, st`dbVersion, st`mirrorUpdatedAt
    ensures st.Valid()
    ensures id == old(st.worktrees.lastId) + 1 && id !in old(st.worktrees.rows)
    ensures st.worktrees == old(st.worktrees).Insert(row) && st.Bumped(now)
  {
    ghost var worktrees0 := st.worktrees;
    id := st.InsertWorktree(row);
    st.BumpVersion(now);
    assert st.worktrees == worktrees0.Insert(row);
  }

  // --------------------------------------------------------------- mirror

  datatype MirrorStatus = MirrorStatus(dbVersion: nat, mdVersion: nat, mdPath: string, outdated: bool, updatedAt: int)

  /** `GetMirrorStatus`: the mirror is outdated exactly when the markdown
    * version lags the store version. */
  function GetMirrorStatus(st: Store): (s: MirrorStatus)
    reads st
    ensures s.dbVersion == st.dbVersion && s.mdVersion == st.mdVersion
    ensures s.outdated <==> st.dbVersion != st.mdVersion
  {
    MirrorStatus(st.dbVersion, st.mdVersion, st.mdPath, st.dbVersion != st.mdVersion, st.mirrorUpdatedAt)
  }

  /** `MarkMirrorRefreshed`: the markdown version catches up with the store
    * version (which itself is not bumped), so the mirror is no longer
    * outdated. */
  method MarkMirrorRefreshed(st: Store, mirrorPath: string, now: int) returns (s: MirrorStatus)
    requires st.Valid()
    modifies st`mdVersion, st`mdPath, st`mirrorUpdatedAt
    ensures st.Valid()
    ensures st.dbVersion == old(st.dbVersion) && st.mdVersion == st.dbVersion
    ensures st.mdPath == mirrorPath && st.mirrorUpdatedAt == now
    ensures s == GetMirrorStatus(st) && !s.outdated
  {
    st.mdVersion := st.dbVersion;
    st.mdPath := mirrorPath;
    st.mirrorUpdatedAt := now;
    s := GetMirrorStatus(st);
  }
}
