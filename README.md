# Vitacoin rewards ledger — verified model

This project models the decision and bookkeeping logic of the Vitacoin rewards backend.
Users earn coins in two ways. The daily login reward is guarded by a 24-hour cooldown and
needs an active `daily_login` reward rule. A task is claimed after an ordered chain of
guards. Every credit is paired with one transaction in an append-only log, and a task
claim also appends a task-completion record. Other parts modelled:

- the leaderboard, which sorts users by coins, keeps the top `limit` and numbers them from 1;
- the admin updates of the rule and task collections;
- the WebSocket connection manager, which keeps one live channel per user id and drops
  channels whose sends fail.

Time is whole seconds since the epoch. A stored datetime is a `Stamp` that is either naive
or carries a UTC offset; a naive stamp is read as UTC. Ids that the server draws with
`uuid4` and the clock reading `now` are parameters. Whether a send over a channel fails
is an input: the set of channels that are broken at that moment.

Files:

- `records.dfy` (module `Records`): the documents, the stamp convention and the admin role gate.
- `daily_reward.dfy` (module `DailyReward`): cooldown arithmetic and the claim decision.
- `task_claim.dfy` (module `TaskClaim`): the guard chain of a task claim, the listing filter and the task update.
- `leaderboard.dfy` (module `Leaderboard`): sort, limit and rank.
- `store.dfy` (module `Store`): class `RewardsStore`, which holds the users, tasks and rules maps and the two logs, and has one method per modelled state-changing handler, plus the task listing and the leaderboard queries over the stored documents.
- `connections.dfy` (module `Connections`): class `ConnectionManager`.

`RewardsStore.Valid()` is kept by every method. It says:

- users and tasks are keyed by their own id, and reward rules by their own key;
- no user's `completedTasks` holds an id twice;
- each user has exactly one task transaction for each task in their completed list, and none for any other task.

Where the code and what a client might expect differ, the model follows the code:

- The cooldown is fixed at 24 hours. The rule's `cooldown_hours` and caps are never read.
- No task requirement is ever checked and no activity is logged, so a claim has no "requirements not met" outcome.
- Users with equal coins get no promised order, because the sort has no tie-break. `GetLeaderboard` promises its entries follow some order by coins, and not which one.
- Updates are not atomic. The model applies requests one at a time.
- A client expects the remaining hours rounded up. The code computes `24 - int(elapsed_hours)`. `HoursRemainingIsCeiling` proves the two agree for every elapsed time from 0 up to 24 hours.

## Model

| member | source | states |
|---|---|---|
| Records.UtcSeconds | backend/server.py:283-286 | a naive stamp stands for its wall-clock reading as UTC; an aware stamp for its reading minus its offset |
| Records.RequireAdmin | backend/server.py:208-211 | the caller passes exactly when its role is admin, and is then returned unchanged |
| DailyReward.TruncDiv | backend/server.py:290 | Python `int()` of a quotient: rounds toward zero, below for positive and above for negative dividends |
| DailyReward.Cooldown | backend/server.py:281-295 | on cooldown exactly when a last claim exists and less than 24 h have elapsed since its UTC instant; the figure is then `24 - int(elapsed/3600)` |
| DailyReward.HoursRemaining | backend/server.py:288-290 | from 0 up to 24 h elapsed the figure is between 1 and 24; a clock behind the stored claim gives 24 or more |
| DailyReward.DailyVerdict | backend/server.py:280-300 | NotYet exactly when on cooldown; RuleNotFound only without an active `daily_login` rule; a success earns that rule's points on top of the balance |
| DailyReward.ActiveRule | backend/server.py:298-300 | a rule is found exactly when the key is stored and its rule is active, and it is that rule |
| DailyReward.HoursRemainingIsCeiling | backend/server.py:288-290 | for 0 <= elapsed < 24 h the reported hours lie in 1..24 and are the remaining time rounded up to whole hours |
| DailyReward.HoursRemainingOnNegativeElapsed | backend/server.py:290 | a clock behind the stored claim yields 24 plus the whole hours of skew (truncation, not floor) |
| DailyReward.CooldownComesFirst | backend/server.py:281-300 | on cooldown, when the clock is not behind the stored claim, the answer is NotYet(24 - elapsed div 3600), in 1..24, whatever rules are stored |
| DailyReward.MissingRuleIsNotFound | backend/server.py:297-300 | an eligible claim is RuleNotFound exactly when no active `daily_login` rule is stored |
| DailyReward.ClaimedIff | backend/server.py:280-346 | a claim succeeds iff the cooldown is over (or there was no claim) and the active rule exists, and then earns the rule's points on top of the balance |
| DailyReward.Credited | backend/server.py:313-323 | after a claim the balance grows by the rule's points, the last-claim instant is now, and the completed tasks are untouched |
| DailyReward.DailyTransaction | backend/server.py:304-311 | the appended transaction is a credit to the user of the rule's points under the rule's key, with no task |
| DailyReward.SecondClaimWithinDayRefused | backend/server.py:281-323 | after a successful claim, any claim less than 24 h later is NotYet with 1..24 hours left |
| DailyReward.RetryScenario | backend/server.py:281-323 | a claim at t0 then t0+23h59m gives NotYet(1); at t0+24h01m the claim succeeds again |
| TaskClaim.FindActive | backend/server.py:377-379 | a task is found exactly when it is stored under the id and active |
| TaskClaim.Expired | backend/server.py:384-386 | only a set expiry can be past; wherever the written comparison answers, the same answer; a naive stamp is compared as UTC |
| TaskClaim.LimitHit | backend/server.py:392-394 | hit exactly when the limit is set and non-zero and the completion count has reached it; an unset or zero limit is never hit |
| TaskClaim.ClaimCheck | backend/server.py:376-394 | a passing claim names a stored, active, unexpired task below its limit and not yet completed by the user; the already-completed and limit errors are reported only when their condition holds |
| TaskClaim.ExpiryAsWritten | backend/server.py:384-386 | the written expiry test raises exactly when the stored expiry is naive; an unset expiry is not expired; an aware one is expired exactly when its UTC instant is before now |
| TaskClaim.NaiveExpiryRaises | backend/server.py:384-386 | a naive stored expiry makes the written test raise, while the corrected test compares its UTC reading |
| TaskClaim.ExpiredAgreesWhereDefined | backend/server.py:384-386 | wherever the written test answers, the corrected test gives the same answer |
| TaskClaim.ClaimCheckReportsFirstViolation | backend/server.py:376-394 | the claim reports the first of all failing guards, in the order not-found, expired, already-completed, limit; it passes iff none fails |
| TaskClaim.Precedence | backend/server.py:376-394 | not-found beats expired beats already-completed beats the limit, whatever else also fails; a set, non-zero, reached limit is refused when the earlier guards pass |
| TaskClaim.UnsetOrZeroLimitIsUnlimited | backend/server.py:392-394 | `max_completions` None or 0 never yields the limit error |
| TaskClaim.CompletedTaskNeverClaimedAgain | backend/server.py:388-390 | a task already in the user's list is always refused, never for the limit |
| TaskClaim.Matches | backend/server.py:358-361 | an absent or empty filter admits every value; a non-empty filter admits exactly its own value |
| TaskClaim.Listed | backend/server.py:356-368 | listed exactly when active, matching both filters, and without expiry or expiring strictly after now; hence not expired, and not listed at its exact expiry instant |
| TaskClaim.AvailableTasks | backend/server.py:349-371 | the listing holds exactly the given tasks that are listed, each as often as it is given, in the given order |
| TaskClaim.ListedIsNotExpired | backend/server.py:363-386 | a listed task is neither not-found nor expired for a claim at the same instant |
| TaskClaim.ClaimableButUnlistedAtExpiry | backend/server.py:363-386 | at exactly its expiry instant a task is not listed yet is not refused as expired |
| TaskClaim.WithFields | backend/server.py:526-537 | an update sets every client field and keeps id, active flag, completion count and creation time |
| TaskClaim.WithFieldsLastWins | backend/server.py:533-534 | of two updates the last wins; repeating an update changes nothing |
| Store.TaskTransaction | backend/server.py:403-411 | the task transaction credits the user with the task's reward under key `task_<category>` and names the task |
| Store.RewardsStore.constructor | backend/server.py:76-85 | a store of registered users with empty completed lists, keyed maps and empty logs satisfies the store invariant |
| Store.RewardsStore.ListAvailableTasks | backend/server.py:349-371 | over the stored tasks each given once in any order, the listing holds each stored task that is listed exactly once, under its own id, and nothing else |
| Store.RewardsStore.GetLeaderboard | backend/server.py:214-231 | over the stored users each given once in any order: min(limit, #users) entries ranked 1..n with coins non-increasing, each the projection of some order by coins, each entry a stored user with its stored name and coins, and no user twice |
| Store.RewardsStore.ClaimDailyReward | backend/server.py:276-346 | the outcome is the daily decision; only a success changes state: the user is credited and stamped, and one `daily_login` credit transaction for the rule's points is appended; tasks, rules and completions never change |
| Store.RewardsStore.CompleteTask | backend/server.py:373-464 | refused exactly with the first failing guard and then nothing changes; on success the user gains the reward and the task id, the task's count grows by 1, one transaction and one completion are appended, and no other user or task changes |
| Store.RewardsStore.CreateRewardRule | backend/server.py:502-510 | non-admins are refused; an existing key, active or not, is refused; otherwise the rule is stored under its key and returned |
| Store.RewardsStore.UpdateTask | backend/server.py:526-537 | non-admins and unknown ids are refused; otherwise only the client fields of that task are overwritten and the updated task is returned |
| Store.RewardsStore.DeleteTask | backend/server.py:539-545 | non-admins are refused; deleting an absent id is not-found; otherwise exactly that task is removed |
| Store.ClaimTwice | backend/server.py:388-390 | a second claim after a successful one is refused, so one credit and one transaction in all |
| Store.DailyTwice | backend/server.py:281-323 | two daily claims within 24 h credit once; the second reports 1..24 hours |
| Leaderboard.Insert | backend/server.py:216 | inserting a user adds exactly that user: one more element, the same multiset plus the user |
| Leaderboard.SortByCoins | backend/server.py:216 | the sort keeps the number of users |
| Leaderboard.SortByCoinsIsSortedPermutation | backend/server.py:216 | the insertion sort is one of the orders the store's sort may return: a permutation with non-increasing coins |
| Leaderboard.EntryAt | backend/server.py:223-229 | an entry carries the user's id, name and coins and the rank position + 1, at least 1 |
| Leaderboard.LowestBalanceLast | backend/server.py:216-217 | with balances 50, 50 and 30, every order by coins puts the 30 last, whatever the tie order |
| Leaderboard.SortByCoinsDescending | backend/server.py:215-216 | the sorted users have non-increasing coins |
| Leaderboard.SortByCoinsPermutes | backend/server.py:215-216 | the sort is a permutation of the users |
| Leaderboard.GetLeaderboard | backend/server.py:214-231 | min(limit, #users) entries, ranks exactly 1..n in order, coins non-increasing, each entry the id, name and coins of the user at that position of some permutation of the users by non-increasing coins; the tie order is left open |
| Leaderboard.TopUsersKept | backend/server.py:215-221 | for any order by coins, the kept and left-out users together are all users, and no left-out user has more coins than a kept one |
| Leaderboard.LeftOutHaveNoMoreCoins | backend/server.py:215-221 | for any order by coins, every user is on the board or has no more coins than its last entry |
| Connections.Healthy | backend/server.py:61-71 | the entries whose channel does not fail, with their channels unchanged |
| Connections.ConnectionManager.constructor | backend/server.py:43-44 | the manager starts with no connections |
| Connections.ConnectionManager.Connect | backend/server.py:46-48 | the map afterwards holds the new channel for the id, replacing any earlier one, and nothing else changes |
| Connections.ConnectionManager.Disconnect | backend/server.py:50-52 | the id's entry is removed if present; removing an absent id changes nothing |
| Connections.ConnectionManager.SendPersonalMessage | backend/server.py:54-59 | delivered iff the id is connected over a working channel; a failed send removes exactly that id |
| Connections.ConnectionManager.BroadcastLeaderboard | backend/server.py:61-71 | exactly the ids whose send failed are removed after the pass; every other entry stays and received the message |

## Findings

| source | as written | input that shows it | evidently intended | confidence | as-written member | corrected member |
|---|---|---|---|---|---|---|
| backend/server.py:384-386 | `task.expires_at < now` compares the stored expiry, which the document store returns without tzinfo by default, with a timezone-aware `now`; Python raises TypeError for that comparison | any active task whose `expires_at` is set and read back as a naive datetime: the claim fails with a server error instead of being judged | read a naive expiry as UTC, as lines 283-286 already do for `last_daily_reward`, and then compare | not executed; medium (depends on the driver's default of naive datetimes) | TaskClaim.ExpiryAsWritten (exhibited by TaskClaim.NaiveExpiryRaises) | TaskClaim.Expired (agreement proved by TaskClaim.ExpiredAgreesWhereDefined; used by TaskClaim.ClaimCheck and Store.RewardsStore.CompleteTask) |

## Left out

- HTTP routing, JSON serialisation, CORS, logging, environment configuration and process start-up are framework wiring, not logic.
- The document store is abstracted as maps and sequences. The query language, aggregation pipelines and `to_list` are not modelled.
- Password hashing, token issuing and token decoding are foreign library calls. The caller of a handler is an existing user; `get_current_user` guarantees this, and `uid in users` stands for it.
- Concurrency is not modelled. The handlers read a user and later overwrite the computed balance, which is not atomic under concurrent requests. The model applies requests one at a time.
- Floating point is not modelled. `total_seconds()/3600` is taken on whole seconds, and sub-second precision is not modelled.
- `created_at` of a transaction or completion record is a second clock read in the source. The model uses the handler's `now`.
- Notifications are not composed with the store handlers. The personal balance messages and the leaderboard broadcast that follow a successful claim (backend/server.py:328-339, 437-457, 233-235) are modelled only as the connection manager's own operations. They come after the writes, so they cannot change the stored state. Message contents are not modelled.
- A notification can still change a completed claim's response, and this is not modelled. `broadcast_leaderboard` iterates the live connection map across an `await` (backend/server.py:64-66), so a connect of a new id, or a disconnect, during the pass changes the map's size and raises RuntimeError; a failure of `get_leaderboard` (backend/server.py:234) propagates too. Either turns the response of a claim whose writes are done into a server error. This belongs with concurrency, which is not modelled.
- Leaderboard.GetLeaderboard: requires `limit >= 1`, because the store's `$limit` stage rejects a limit below 1 with an error that is not modelled.
- Leaderboard.SortByCoins: an insertion sort stands for the store's `$sort`. It is only the witness that some order by coins exists; `GetLeaderboard` and the lemmas about the board hold for every such order.
- `RewardRule.penalty`, `cooldown_hours`, `daily_cap`, `per_user_cap` and `Task.requirements` are stored but never read by the code. They have no effect in the model; only `penalty` is kept, as an inert field.
- User `email`, `badges`, `password_hash` and `created_at` are not read by the modelled logic.
- `register` (backend/server.py:238-255), `create_task` (backend/server.py:519-524) and the `init-db` seeding (backend/server.py:565-684) change state but are not part of this model. `login` (backend/server.py:257-270) only reads a user and issues a token, which belongs to the authentication left out above. The read-only endpoints `/auth/me` (backend/server.py:272-274), `/tasks/completed` (backend/server.py:466-473), `/transactions` (backend/server.py:475-485) and the admin listings of users, rules, tasks and completions (backend/server.py:492-500, 513-517, 547-551) only return stored documents and are not part of this model either. Initial users, tasks and rules are given to the `RewardsStore` constructor, with users that have completed no task yet, as registration creates them.
- Coins are unbounded integers. The store's 64-bit integer limit is not modelled.
