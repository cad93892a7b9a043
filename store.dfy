/** The ledger store: users, tasks and reward rules keyed by id (rules by their key), an
    append-only transaction log and an append-only log of task completions. Its methods are
    the request handlers that change stored state, applied one request at a time. */
module Store {
  import opened Records
  import opened DailyReward
  import opened TaskClaim
  import Leaderboard

  /** Number of transactions crediting user `uid` for task `tid`. */
  function TaskCredits(txs: seq<Transaction>, uid: string, tid: string): nat {
    if txs == [] then 0
    else
      var last := txs[|txs| - 1];
      TaskCredits(txs[..|txs| - 1], uid, tid) +
        (if last.userId == uid && last.taskId == Some(tid) then 1 else 0)
  }

  lemma TaskCreditsAppend(txs: seq<Transaction>, t: Transaction, uid: string, tid: string)
    ensures TaskCredits(txs + [t], uid, tid) ==
            TaskCredits(txs, uid, tid) + (if t.userId == uid && t.taskId == Some(tid) then 1 else 0)
  {
    assert (txs + [t])[..|txs|] == txs;
  }

  /** The transaction appended by a successful task claim. */
  function TaskTransaction(txId: string, user: User, task: Task, now: int): (t: Transaction)
    ensures t.userId == user.id && t.amount == task.coinsReward && t.kind == Credit
    ensures t.ruleKey == "task_" + task.category && t.taskId == Some(task.id)
  {
    Transaction(txId, user.id, task.coinsReward, Credit, "task_" + task.category,
                "Task completed: " + task.title, Some(task.id), now)
  }

  /** In a map whose values carry their own key as id, there are as many values as keys. */
  lemma {:induction false} SelfKeyedValues(m: map<string, User>)
    requires forall k :: k in m ==> m[k].id == k
    ensures |m.Values| == |m|
    decreases |m|
  {
    if m != map[] {
      var k :| k in m;
      var rest := m - {k};
      SelfKeyedValues(rest);
      forall v ensures v in m.Values <==> v in rest.Values + {m[k]} {
        if v in m.Values {
          var k' :| k' in m && m[k'] == v;
          if k' != k { assert rest[k'] == v; }
        }
      }
      assert m.Values == rest.Values + {m[k]};
      assert m[k] !in rest.Values;
    }
  }

  datatype TaskOutcome = TaskDone(coinsEarned: int, newBalance: int) | TaskRefused(error: ClaimError)

  datatype AdminError = NotAdmin | RuleKeyExists | NoSuchTask

  class RewardsStore {
    var users: map<string, User>
    var tasks: map<string, Task>
    var rules: map<string, RewardRule>
    var transactions: seq<Transaction>
    var completions: seq<TaskCompletion>

    /** Documents are keyed by their own id (rules by key); no user lists a task twice;
        and each user is credited for a task exactly as often as the task is in the user's
        completed list: once or never. */
    ghost predicate Valid()
      reads this
    {
      && (forall u :: u in users ==> users[u].id == u && NoDuplicates(users[u].completedTasks))
      && (forall t :: t in tasks ==> tasks[t].id == t)
      && (forall k :: k in rules ==> rules[k].key == k)
      && (forall u, t :: u in users ==>
            TaskCredits(transactions, u, t) == (if t in users[u].completedTasks then 1 else 0))
    }

    /** A store holding registered users, who have completed no task yet, and empty logs. */
    constructor (users0: map<string, User>, tasks0: map<string, Task>, rules0: map<string, RewardRule>)
      requires forall u :: u in users0 ==> users0[u].id == u && users0[u].completedTasks == []
      requires forall t :: t in tasks0 ==> tasks0[t].id == t
      requires forall k :: k in rules0 ==> rules0[k].key == k
      ensures Valid()
      ensures users == users0 && tasks == tasks0 && rules == rules0
      ensures transactions == [] && completions == []
    {
      users, tasks, rules := users0, tasks0, rules0;
      transactions, completions := [], [];
    }

    /** The task listing over this store's tasks. `docs` is the order in which the store
        hands back the task documents, which is not modelled: each stored task exactly
        once, in any order. The listing holds each stored task that is listed exactly once,
        under its own id, and nothing else. */
    method ListAvailableTasks(docs: seq<Task>, category: Option<string>, difficulty: Option<string>, now: int)
      returns (r: seq<Task>)
      requires Valid()
      requires multiset(docs) == multiset(tasks.Values)
      ensures r == AvailableTasks(docs, category, difficulty, now)
      ensures forall t :: t in r <==> t in tasks.Values && Listed(t, category, difficulty, now)
      ensures forall t :: multiset(r)[t] == if t in tasks.Values && Listed(t, category, difficulty, now) then 1 else 0
      ensures forall t :: t in r ==> t.id in tasks && tasks[t.id] == t
    {
      r := AvailableTasks(docs, category, difficulty, now);
      assert forall t :: t in docs <==> t in tasks.Values by {
        forall t ensures t in docs <==> t in tasks.Values {
          assert t in docs <==> t in multiset(docs);
        }
      }
    }

    /** The leaderboard over this store's users. `docs` is the order in which the store
        hands back the user documents, which is not modelled: each stored user exactly
        once, in any order. Every entry is a different stored user, with the name and coins
        stored for it, at its place in some order of the users by coins. */
    method GetLeaderboard(docs: seq<User>, limit: int) returns (entries: seq<Leaderboard.LeaderboardEntry>)
      requires Valid()
      requires multiset(docs) == multiset(users.Values)
      requires limit >= 1
      ensures |entries| == Leaderboard.Min(limit, |users|)
      ensures forall i :: 0 <= i < |entries| ==> entries[i].rank == i + 1
      ensures forall i, j :: 0 <= i < j < |entries| ==> entries[i].coins >= entries[j].coins
      ensures exists s :: Leaderboard.SortedPermutationOf(s, docs) && |entries| <= |s| &&
                forall i :: 0 <= i < |entries| ==> entries[i] == Leaderboard.EntryAt(s[i], i)
      ensures forall i :: 0 <= i < |entries| ==>
                entries[i].id in users && users[entries[i].id].name == entries[i].name &&
                users[entries[i].id].coins == entries[i].coins
      ensures forall i, j :: 0 <= i < j < |entries| ==> entries[i].id != entries[j].id
    {
      entries := Leaderboard.GetLeaderboard(docs, limit);
      SelfKeyedValues(users);
      assert |docs| == |users| by { assert |multiset(docs)| == |multiset(users.Values)|; }
      ghost var s: seq<User> :| Leaderboard.SortedPermutationOf(s, docs) && |entries| <= |s| &&
                               forall i :: 0 <= i < |entries| ==> entries[i] == Leaderboard.EntryAt(s[i], i);
      forall i | 0 <= i < |entries|
        ensures entries[i].id in users && users[entries[i].id].name == entries[i].name &&
                users[entries[i].id].coins == entries[i].coins
      {
        assert s[i] in multiset(docs) by { assert s[i] in multiset(s); }
        assert s[i] in users.Values;
        var k :| k in users && users[k] == s[i];
      }
      forall i, j | 0 <= i < j < |entries|
        ensures entries[i].id != entries[j].id
      {
        if s[i] == s[j] {
          Leaderboard.RepeatCountsTwice(s, i, j);
          assert false;
        } else {
          assert s[i] in multiset(s) && s[j] in multiset(s);
          assert s[i] in users.Values && s[j] in users.Values;
        }
      }
    }

    /** The daily login reward for user `uid` at `now`; `txId` is the new transaction's id. */
    method ClaimDailyReward(uid: string, now: int, txId: string) returns (r: DailyOutcome)
      requires Valid() && uid in users
      modifies this
      ensures Valid()
      ensures r == DailyVerdict(old(users[uid]), old(rules), now)
      ensures tasks == old(tasks) && rules == old(rules) && completions == old(completions)
      ensures !r.Claimed? ==> users == old(users) && transactions == old(transactions)
      ensures r.Claimed? ==>
                var rule := old(rules)[DailyLoginKey];
                && users == old(users)[uid := Credited(old(users[uid]), rule, now)]
                && transactions == old(transactions) + [DailyTransaction(txId, old(users[uid]), rule, now)]
      ensures r.Claimed? ==>
                var tx := transactions[|transactions| - 1];
                tx.ruleKey == DailyLoginKey && tx.kind == Credit && tx.amount == r.coinsEarned &&
                users[uid].coins == old(users[uid].coins) + r.coinsEarned && r.newBalance == users[uid].coins
    {
      var user := users[uid];
      var cooldown := Cooldown(user.lastDailyReward, now);
      if cooldown.Some? {
        return NotYet(cooldown.value);
      }
      var found := ActiveRule(rules, DailyLoginKey);
      if found.None? {
        return RuleNotFound;
      }
      var rule := found.value;
      var tx := DailyTransaction(txId, user, rule, now);
      var newCoins := user.coins + rule.points;
      users := users[uid := user.(coins := newCoins, lastDailyReward := Some(UtcStamp(now)))];
      forall u, t | u in users
        ensures TaskCredits(transactions + [tx], u, t) == (if t in users[u].completedTasks then 1 else 0)
      {
        TaskCreditsAppend(transactions, tx, u, t);
      }
      transactions := transactions + [tx];
      r := Claimed(rule.points, newCoins);
    }

    /** Claim of task `taskId` by user `uid` at `now`; `txId` and `completionId` are the ids
        of the new transaction and completion record. */
    method CompleteTask(taskId: string, uid: string, now: int, txId: string, completionId: string)
      returns (r: TaskOutcome)
      requires Valid() && uid in users
      modifies this
      ensures Valid()
      ensures r.TaskRefused? <==> ClaimCheck(old(tasks), taskId, old(users[uid]), now).Some?
      ensures r.TaskRefused? ==> Some(r.error) == ClaimCheck(old(tasks), taskId, old(users[uid]), now)
      ensures rules == old(rules)
      ensures r.TaskRefused? ==>
                users == old(users) && tasks == old(tasks) &&
                transactions == old(transactions) && completions == old(completions)
      ensures r.TaskDone? ==>
                var user := old(users[uid]);
                var task := old(tasks[taskId]);
                && r == TaskDone(task.coinsReward, user.coins + task.coinsReward)
                && users == old(users)[uid := user.(coins := user.coins + task.coinsReward,
                                                    completedTasks := user.completedTasks + [taskId])]
                && tasks == old(tasks)[taskId := task.(completionCount := task.completionCount + 1)]
                && transactions == old(transactions) + [TaskTransaction(txId, user, task, now)]
                && completions == old(completions) +
                                  [TaskCompletion(completionId, uid, taskId, task.coinsReward, now)]
    {
      var found := FindActive(tasks, taskId);
      if found.None? {
        return TaskRefused(TaskNotFound);
      }
      var task := found.value;
      if Expired(task.expiresAt, now) {
        return TaskRefused(TaskExpired);
      }
      var user := users[uid];
      if taskId in user.completedTasks {
        return TaskRefused(AlreadyCompleted);
      }
      if LimitHit(task) {
        return TaskRefused(LimitReached);
      }
      var completion := TaskCompletion(completionId, uid, taskId, task.coinsReward, now);
      var tx := TaskTransaction(txId, user, task, now);
      var newCoins := user.coins + task.coinsReward;
      var completed := user.completedTasks + [taskId];
      users := users[uid := user.(coins := newCoins, completedTasks := completed)];
      tasks := tasks[taskId := task.(completionCount := task.completionCount + 1)];
      completions := completions + [completion];
      forall u, t | u in users
        ensures TaskCredits(transactions + [tx], u, t) == (if t in users[u].completedTasks then 1 else 0)
      {
        TaskCreditsAppend(transactions, tx, u, t);
      }
      transactions := transactions + [tx];
      r := TaskDone(task.coinsReward, newCoins);
    }

    /** Adds a reward rule unless a rule with the same key exists, active or not. */
    method CreateRewardRule(caller: User, rule: RewardRule) returns (r: Result<RewardRule, AdminError>)
      requires Valid()
      modifies this
      ensures Valid()
      ensures r.Err? <==> caller.role != AdminRole || rule.key in old(rules)
      ensures caller.role != AdminRole ==> r == Err(NotAdmin)
      ensures caller.role == AdminRole && rule.key in old(rules) ==> r == Err(RuleKeyExists)
      ensures r.Ok? ==> r.value == rule && rules == old(rules)[rule.key := rule]
      ensures r.Err? ==> rules == old(rules)
      ensures users == old(users) && tasks == old(tasks)
      ensures transactions == old(transactions) && completions == old(completions)
    {
      if RequireAdmin(caller).Err? {
        return Err(NotAdmin);
      }
      if rule.key in rules {
        return Err(RuleKeyExists);
      }
      rules := rules[rule.key := rule];
      r := Ok(rule);
    }

    /** Overwrites the client-settable fields of task `taskId`. */
    method UpdateTask(caller: User, taskId: string, fields: TaskFields) returns (r: Result<Task, AdminError>)
      requires Valid()
      modifies this
      ensures Valid()
      ensures r.Err? <==> caller.role != AdminRole || taskId !in old(tasks)
      ensures caller.role != AdminRole ==> r == Err(NotAdmin)
      ensures caller.role == AdminRole && taskId !in old(tasks) ==> r == Err(NoSuchTask)
      ensures r.Ok? ==> r.value == WithFields(old(tasks)[taskId], fields)
                        && tasks == old(tasks)[taskId := r.value]
      ensures r.Err? ==> tasks == old(tasks)
      ensures users == old(users) && rules == old(rules)
      ensures transactions == old(transactions) && completions == old(completions)
    {
      if RequireAdmin(caller).Err? {
        return Err(NotAdmin);
      }
      if taskId !in tasks {
        return Err(NoSuchTask);
      }
      var updated := WithFields(tasks[taskId], fields);
      tasks := tasks[taskId := updated];
      r := Ok(updated);
    }

    /** Removes task `taskId`; nothing removed is a not-found outcome. */
    method DeleteTask(caller: User, taskId: string) returns (r: Result<(), AdminError>)
      requires Valid()
      modifies this
      ensures Valid()
      ensures r.Err? <==> caller.role != AdminRole || taskId !in old(tasks)
      ensures caller.role != AdminRole ==> r == Err(NotAdmin)
      ensures caller.role == AdminRole && taskId !in old(tasks) ==> r == Err(NoSuchTask)
      ensures tasks == if r.Ok? then old(tasks) - {taskId} else old(tasks)
      ensures users == old(users) && rules == old(rules)
      ensures transactions == old(transactions) && completions == old(completions)
    {
      if RequireAdmin(caller).Err? {
        return Err(NotAdmin);
      }
      var deletedCount := if taskId in tasks then 1 else 0;
      tasks := tasks - {taskId};
      if deletedCount == 0 {
        return Err(NoSuchTask);
      }
      r := Ok(());
    }
  }

  /** Two claims of the same task by the same user, one after the other: the second is
      refused, so the user is credited once and one transaction is appended. */
  method ClaimTwice(store: RewardsStore, taskId: string, uid: string, now: int, later: int)
    returns (first: TaskOutcome, second: TaskOutcome)
    requires store.Valid() && uid in store.users
    modifies store
    ensures store.Valid() && uid in store.users
    ensures first.TaskDone? ==> second.TaskRefused? && second.error != LimitReached
    ensures first.TaskDone? ==>
              |store.transactions| == |old(store.transactions)| + 1 &&
              store.users[uid].coins == old(store.users[uid].coins) + first.coinsEarned
  {
    first := store.CompleteTask(taskId, uid, now, "tx-1", "completion-1");
    second := store.CompleteTask(taskId, uid, later, "tx-2", "completion-2");
  }

  /** A daily claim followed by a second one less than 24 hours later: the second reports
      the remaining hours and credits nothing. */
  method DailyTwice(store: RewardsStore, uid: string, now: int, later: int)
    returns (first: DailyOutcome, second: DailyOutcome)
    requires store.Valid() && uid in store.users
    requires now <= later < now + CooldownSeconds
    modifies store
    ensures store.Valid() && uid in store.users
    ensures first.Claimed? ==> second.NotYet? && 1 <= second.nextRewardIn <= 24
    ensures first.Claimed? ==>
              |store.transactions| == |old(store.transactions)| + 1 &&
              store.users[uid].coins == old(store.users[uid].coins) + first.coinsEarned
  {
    first := store.ClaimDailyReward(uid, now, "tx-1");
    second := store.ClaimDailyReward(uid, later, "tx-2");
    if first.Claimed? {
      HoursRemainingIsCeiling(later - now);
    }
  }
}
