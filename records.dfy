/** The documents of the rewards ledger: users, tasks, reward rules, transactions and
    task-completion records, together with the timestamp convention the handlers use.
    Time is counted in whole seconds since the epoch. */
module Records {

  datatype Option<T> = None | Some(value: T)

  /** A stored datetime. `offset` is the UTC offset in seconds of an aware datetime;
      `None` is a naive datetime (no tzinfo), which is what the document store hands back. */
  datatype Stamp = Stamp(wall: int, offset: Option<int>)

  /** The instant a stamp stands for; a naive stamp is read as UTC. */
  function UtcSeconds(s: Stamp): (t: int)
    ensures s.offset.None? ==> t == s.wall
    ensures s.offset.Some? ==> t + s.offset.value == s.wall
  {
    match s.offset
    case None => s.wall
    case Some(off) => s.wall - off
  }

  /** An aware UTC datetime, as `datetime.now(timezone.utc)` produces. */
  function UtcStamp(t: int): Stamp { Stamp(t, Some(0)) }

  datatype Role = UserRole | AdminRole

  datatype User = User(
    id: string,
    name: string,
    role: Role,
    coins: int,
    lastDailyReward: Option<Stamp>,
    completedTasks: seq<string>)

  datatype Task = Task(
    id: string,
    title: string,
    description: string,
    category: string,
    coinsReward: int,
    difficulty: string,
    active: bool,
    maxCompletions: Option<int>,
    completionCount: int,
    expiresAt: Option<Stamp>,
    createdAt: int)

  /** The fields a client may send when creating or updating a task. */
  datatype TaskFields = TaskFields(
    title: string,
    description: string,
    category: string,
    coinsReward: int,
    difficulty: string,
    maxCompletions: Option<int>,
    expiresAt: Option<Stamp>)

  datatype RewardRule = RewardRule(
    id: string,
    key: string,
    description: string,
    points: int,
    penalty: bool,
    active: bool,
    createdAt: int)

  datatype TxKind = Credit | Debit

  datatype Transaction = Transaction(
    id: string,
    userId: string,
    amount: int,
    kind: TxKind,
    ruleKey: string,
    description: string,
    taskId: Option<string>,
    createdAt: int)

  datatype TaskCompletion = TaskCompletion(
    id: string,
    userId: string,
    taskId: string,
    coinsEarned: int,
    completedAt: int)

  datatype AccessError = Forbidden

  /** The admin gate in front of every admin route: only the "admin" role passes. */
  function RequireAdmin(caller: User): (r: Result<User, AccessError>)
    ensures r.Ok? <==> caller.role == AdminRole
    ensures r.Ok? ==> r.value == caller
  {
    if caller.role != AdminRole then Err(Forbidden) else Ok(caller)
  }

  datatype Result<T, E> = Ok(value: T) | Err(error: E)

  /** No id occurs twice. */
  predicate NoDuplicates(s: seq<string>) {
    forall i, j :: 0 <= i < j < |s| ==> s[i] != s[j]
  }
}
