/** The pure part of task handling: the ordered guard chain a claim runs through, the
    filter that decides which tasks are listed, and the field overwrite of a task update. */
module TaskClaim {
  import opened Records

  datatype ClaimError = TaskNotFound | TaskExpired | AlreadyCompleted | LimitReached

  /** The task a lookup by id restricted to active tasks finds. */
  function FindActive(tasks: map<string, Task>, taskId: string): (r: Option<Task>)
    ensures r.Some? <==> taskId in tasks && tasks[taskId].active
    ensures r.Some? ==> r.value == tasks[taskId]
  {
    if taskId in tasks && tasks[taskId].active then Some(tasks[taskId]) else None
  }

  // ---------------------------------------------------------------------------
  // Expiry. The handler compares the stored `expires_at` with an aware `now`; a stored
  // naive datetime makes that comparison raise. `ExpiryAsWritten` keeps that behaviour,
  // `Expired` reads a naive stamp as UTC, as the daily reward does with its timestamp.

  datatype PyError = TypeError

  /** The expiry test as the handler writes it: `expires_at and expires_at < now`. */
  function ExpiryAsWritten(expiresAt: Option<Stamp>, now: int): (r: Result<bool, PyError>)
    ensures r.Err? <==> expiresAt.Some? && expiresAt.value.offset.None?
    ensures expiresAt.None? ==> r == Ok(false)
    ensures expiresAt.Some? && expiresAt.value.offset.Some? ==> r == Ok(UtcSeconds(expiresAt.value) < now)
  {
    match expiresAt
    case None => Ok(false)
    case Some(s) =>
      if s.offset.None? then Err(TypeError)   // naive vs aware comparison
      else Ok(UtcSeconds(s) < now)
  }

  /** The expiry test with a naive stamp read as UTC. It gives the written test's answer
      wherever that one answers. */
  function Expired(expiresAt: Option<Stamp>, now: int): (r: bool)
    ensures r ==> expiresAt.Some?
    ensures ExpiryAsWritten(expiresAt, now).Ok? ==> ExpiryAsWritten(expiresAt, now) == Ok(r)
    ensures expiresAt.Some? && expiresAt.value.offset.None? ==> (r <==> expiresAt.value.wall < now)
  {
    expiresAt.Some? && UtcSeconds(expiresAt.value) < now
  }

  /** A task whose expiry was stored without a timezone cannot be claimed as written:
      the claim fails with a TypeError instead of a verdict. */
  lemma NaiveExpiryRaises(wall: int, now: int)
    ensures ExpiryAsWritten(Some(Stamp(wall, None)), now) == Err(TypeError)
    ensures Expired(Some(Stamp(wall, None)), now) == (wall < now)
  {
  }

  /** Wherever the written test gives an answer, the corrected test gives the same one. */
  lemma ExpiredAgreesWhereDefined(expiresAt: Option<Stamp>, now: int)
    requires ExpiryAsWritten(expiresAt, now).Ok?
    ensures ExpiryAsWritten(expiresAt, now) == Ok(Expired(expiresAt, now))
  {
  }

  // ---------------------------------------------------------------------------
  // The guard chain

  /** True when `max_completions` is set and truthy (neither None nor 0) and reached. */
  function LimitHit(task: Task): (r: bool)
    ensures task.maxCompletions == None || task.maxCompletions == Some(0) ==> !r
    ensures r ==> task.completionCount >= task.maxCompletions.value
    ensures (task.maxCompletions.Some? && task.maxCompletions.value != 0 &&
             task.completionCount < task.maxCompletions.value) ==> !r
    ensures (task.maxCompletions.Some? && task.maxCompletions.value != 0 &&
             task.completionCount >= task.maxCompletions.value) ==> r
  {
    task.maxCompletions.Some? && task.maxCompletions.value != 0 &&
    task.completionCount >= task.maxCompletions.value
  }

  /** The first guard a claim of `taskId` by `user` at `now` fails, if any. */
  function ClaimCheck(tasks: map<string, Task>, taskId: string, user: User, now: int): (r: Option<ClaimError>)
    ensures r.None? ==> taskId in tasks && tasks[taskId].active && taskId !in user.completedTasks
    ensures r.None? ==> !Expired(tasks[taskId].expiresAt, now) && !LimitHit(tasks[taskId])
    ensures r == Some(AlreadyCompleted) ==> taskId in user.completedTasks
    ensures r == Some(LimitReached) ==> taskId in tasks && LimitHit(tasks[taskId])
  {
    match FindActive(tasks, taskId)
    case None => Some(TaskNotFound)
    case Some(task) =>
      if Expired(task.expiresAt, now) then Some(TaskExpired)
      else if taskId in user.completedTasks then Some(AlreadyCompleted)
      else if LimitHit(task) then Some(LimitReached)
      else None
  }

  /** Every guard the claim fails, in the order the errors are listed: a reference
      definition that looks at all conditions, not only the first. */
  function Violations(tasks: map<string, Task>, taskId: string, user: User, now: int): (v: seq<ClaimError>)
    ensures TaskNotFound in v ==> v == [TaskNotFound]
  {
    if !(taskId in tasks && tasks[taskId].active) then [TaskNotFound]
    else
      var task := tasks[taskId];
      (if Expired(task.expiresAt, now) then [TaskExpired] else []) +
      (if taskId in user.completedTasks then [AlreadyCompleted] else []) +
      (if LimitHit(task) then [LimitReached] else [])
  }

  /** The claim reports the earliest failing guard, and succeeds exactly when none fails. */
  lemma ClaimCheckReportsFirstViolation(tasks: map<string, Task>, taskId: string, user: User, now: int)
    ensures ClaimCheck(tasks, taskId, user, now).None? <==> Violations(tasks, taskId, user, now) == []
    ensures Violations(tasks, taskId, user, now) != [] ==>
              ClaimCheck(tasks, taskId, user, now) == Some(Violations(tasks, taskId, user, now)[0])
  {
  }

  /** When every guard fails at once the order decides: not-found, then expired, then
      already-completed, then the completion limit. */
  lemma Precedence(tasks: map<string, Task>, taskId: string, user: User, now: int)
    ensures !(taskId in tasks && tasks[taskId].active) ==>
              ClaimCheck(tasks, taskId, user, now) == Some(TaskNotFound)
    ensures taskId in tasks && tasks[taskId].active && Expired(tasks[taskId].expiresAt, now) ==>
              ClaimCheck(tasks, taskId, user, now) == Some(TaskExpired)
    ensures taskId in tasks && tasks[taskId].active && !Expired(tasks[taskId].expiresAt, now)
            && taskId in user.completedTasks ==>
              ClaimCheck(tasks, taskId, user, now) == Some(AlreadyCompleted)
    ensures taskId in tasks && tasks[taskId].active && !Expired(tasks[taskId].expiresAt, now)
            && taskId !in user.completedTasks
            && tasks[taskId].maxCompletions.Some? && tasks[taskId].maxCompletions.value != 0
            && tasks[taskId].completionCount >= tasks[taskId].maxCompletions.value ==>
              ClaimCheck(tasks, taskId, user, now) == Some(LimitReached)
  {
  }

  /** `max_completions` of None or 0 means unlimited: the limit guard never fires. */
  lemma UnsetOrZeroLimitIsUnlimited(tasks: map<string, Task>, taskId: string, user: User, now: int)
    requires taskId in tasks
    requires tasks[taskId].maxCompletions == None || tasks[taskId].maxCompletions == Some(0)
    ensures ClaimCheck(tasks, taskId, user, now) != Some(LimitReached)
  {
  }

  /** Once the id is in the user's completed list, no later claim of it succeeds. */
  lemma CompletedTaskNeverClaimedAgain(tasks: map<string, Task>, taskId: string, user: User, now: int)
    requires taskId in user.completedTasks
    ensures ClaimCheck(tasks, taskId, user, now).Some?
    ensures ClaimCheck(tasks, taskId, user, now) != Some(LimitReached)
  {
  }

  // ---------------------------------------------------------------------------
  // Listing

  /** A query parameter filters only when it is truthy: neither absent nor empty. */
  function Matches(filter: Option<string>, value: string): (r: bool)
    ensures filter.None? || filter == Some("") ==> r
    ensures filter.Some? && filter.value != "" ==> (r <==> filter.value == value)
  {
    filter.None? || filter.value == "" || filter.value == value
  }

  /** The listing query: active, matching the filters, and without expiry or expiring
      strictly after `now`. */
  function Listed(task: Task, category: Option<string>, difficulty: Option<string>, now: int): (r: bool)
    ensures r ==> task.active && !Expired(task.expiresAt, now)
    ensures r ==> Matches(category, task.category) && Matches(difficulty, task.difficulty)
    ensures task.expiresAt.Some? && UtcSeconds(task.expiresAt.value) == now ==> !r
    ensures (task.active && Matches(category, task.category) && Matches(difficulty, task.difficulty) &&
             (task.expiresAt.None? || UtcSeconds(task.expiresAt.value) > now)) ==> r
  {
    task.active && Matches(category, task.category) && Matches(difficulty, task.difficulty) &&
    (task.expiresAt.None? || UtcSeconds(task.expiresAt.value) > now)
  }

  /** The tasks the listing returns, in storage order: each listed task as often as it
      occurs in `tasks`, and no other. */
  function AvailableTasks(tasks: seq<Task>, category: Option<string>, difficulty: Option<string>, now: int)
    : (r: seq<Task>)
    ensures |r| <= |tasks|
    ensures forall t :: t in r <==> t in tasks && Listed(t, category, difficulty, now)
    ensures forall t :: multiset(r)[t] == if Listed(t, category, difficulty, now) then multiset(tasks)[t] else 0
  {
    if tasks == [] then []
    else
      assert tasks == [tasks[0]] + tasks[1..];
      var rest := AvailableTasks(tasks[1..], category, difficulty, now);
      if Listed(tasks[0], category, difficulty, now) then [tasks[0]] + rest else rest
  }

  /** A listed task passes the first two guards of a claim at the same instant. */
  lemma ListedIsNotExpired(tasks: map<string, Task>, taskId: string, user: User, now: int)
    requires taskId in tasks && Listed(tasks[taskId], None, None, now)
    ensures ClaimCheck(tasks, taskId, user, now) != Some(TaskNotFound)
    ensures ClaimCheck(tasks, taskId, user, now) != Some(TaskExpired)
  {
  }

  /** At exactly its expiry instant an active task is no longer listed, yet a claim is
      not refused as expired: the listing uses `>` and the claim uses `<`. */
  lemma ClaimableButUnlistedAtExpiry(task: Task, user: User, now: int)
    requires task.active && task.expiresAt.Some? && UtcSeconds(task.expiresAt.value) == now
    ensures !Listed(task, None, None, now)
    ensures ClaimCheck(map[task.id := task], task.id, user, now) != Some(TaskExpired)
    ensures task.id !in user.completedTasks && !LimitHit(task) ==>
              ClaimCheck(map[task.id := task], task.id, user, now).None?
  {
  }

  // ---------------------------------------------------------------------------
  // Update

  function FieldsOf(t: Task): TaskFields {
    TaskFields(t.title, t.description, t.category, t.coinsReward, t.difficulty, t.maxCompletions, t.expiresAt)
  }

  /** A task with the client-settable fields overwritten by `f`. */
  function WithFields(t: Task, f: TaskFields): (r: Task)
    ensures FieldsOf(r) == f
    ensures r.id == t.id && r.active == t.active
    ensures r.completionCount == t.completionCount && r.createdAt == t.createdAt
  {
    t.(title := f.title, description := f.description, category := f.category,
       coinsReward := f.coinsReward, difficulty := f.difficulty,
       maxCompletions := f.maxCompletions, expiresAt := f.expiresAt)
  }

  /** Applying the same update twice is applying it once, and the last update wins. */
  lemma WithFieldsLastWins(t: Task, f: TaskFields, g: TaskFields)
    ensures WithFields(WithFields(t, f), g) == WithFields(t, g)
    ensures WithFields(WithFields(t, f), f) == WithFields(t, f)
  {
  }
}
