/** The decision procedure of the daily login reward: a fixed 24-hour cooldown measured
    from the last claim, then a lookup of the active "daily_login" rule. */
module DailyReward {
  import opened Records

  const SecondsPerHour := 3600
  const CooldownHours := 24
  const CooldownSeconds := CooldownHours * SecondsPerHour
  const DailyLoginKey := "daily_login"

  /** Python's `int()` on a quotient: division truncating toward zero. */
  function TruncDiv(a: int, d: int): (q: int)
    requires d > 0
    ensures a >= 0 ==> q * d <= a < q * d + d
    ensures a < 0 ==> q * d - d < a <= q * d
  {
    if a >= 0 then a / d else -((-a) / d)
  }

  /** The whole hours reported until the next claim, after `elapsed` seconds. */
  function HoursRemaining(elapsed: int): (h: int)
    ensures 0 <= elapsed < CooldownSeconds ==> 1 <= h <= CooldownHours
    ensures elapsed < 0 ==> h >= CooldownHours
  {
    CooldownHours - TruncDiv(elapsed, SecondsPerHour)
  }

  /** `Some(hours)` while the user is still on cooldown, `None` when the user may claim. */
  function Cooldown(last: Option<Stamp>, now: int): (r: Option<int>)
    ensures r.Some? <==> last.Some? && now - UtcSeconds(last.value) < CooldownSeconds
    ensures r.Some? ==> r.value == HoursRemaining(now - UtcSeconds(last.value))
  {
    match last
    case None => None
    case Some(stamp) =>
      var elapsed := now - UtcSeconds(stamp);
      if elapsed < CooldownSeconds then Some(HoursRemaining(elapsed)) else None
  }

  /** The document a query for an active rule with this key finds, if any. */
  function ActiveRule(rules: map<string, RewardRule>, key: string): (r: Option<RewardRule>)
    ensures r.Some? <==> key in rules && rules[key].active
    ensures r.Some? ==> r.value == rules[key]
  {
    if key in rules && rules[key].active then Some(rules[key]) else None
  }

  datatype DailyOutcome =
    | Claimed(coinsEarned: int, newBalance: int)
    | NotYet(nextRewardIn: int)
    | RuleNotFound

  /** The response of a daily claim by `user` at `now`. */
  function DailyVerdict(user: User, rules: map<string, RewardRule>, now: int): (r: DailyOutcome)
    ensures r.NotYet? <==> Cooldown(user.lastDailyReward, now).Some?
    ensures r.RuleNotFound? ==> ActiveRule(rules, DailyLoginKey).None?
    ensures r.Claimed? ==> DailyLoginKey in rules && rules[DailyLoginKey].active
    ensures r.Claimed? ==> r.coinsEarned == rules[DailyLoginKey].points &&
                           r.newBalance == user.coins + r.coinsEarned
  {
    match Cooldown(user.lastDailyReward, now)
    case Some(hours) => NotYet(hours)
    case None =>
      match ActiveRule(rules, DailyLoginKey)
      case None => RuleNotFound
      case Some(rule) => Claimed(rule.points, user.coins + rule.points)
  }

  /** The user document after a successful claim. */
  function Credited(user: User, rule: RewardRule, now: int): (u: User)
    ensures u.coins - user.coins == rule.points
    ensures u.lastDailyReward.Some? && UtcSeconds(u.lastDailyReward.value) == now
    ensures u.id == user.id && u.completedTasks == user.completedTasks
  {
    user.(coins := user.coins + rule.points, lastDailyReward := Some(UtcStamp(now)))
  }

  /** The transaction appended by a successful claim. */
  function DailyTransaction(txId: string, user: User, rule: RewardRule, now: int): (t: Transaction)
    ensures t.userId == user.id && t.amount == rule.points && t.kind == Credit
    ensures t.ruleKey == rule.key && t.taskId.None?
  {
    Transaction(txId, user.id, rule.points, Credit, rule.key, rule.description, None, now)
  }

  // ---------------------------------------------------------------------------
  // Properties

  /** While on cooldown the reported hours are the remaining time rounded up to whole
      hours, hence between 1 and 24. */
  lemma HoursRemainingIsCeiling(elapsed: int)
    requires 0 <= elapsed < CooldownSeconds
    ensures var h := HoursRemaining(elapsed);
      1 <= h <= 24 &&
      (h - 1) * SecondsPerHour < CooldownSeconds - elapsed <= h * SecondsPerHour
  {
    var q := elapsed / SecondsPerHour;
    assert q * SecondsPerHour <= elapsed < q * SecondsPerHour + SecondsPerHour;
    assert 0 <= q < 24;
  }

  /** A clock that reads earlier than the stored claim gives a figure of 24 or more:
      truncation toward zero, not floor division. */
  lemma HoursRemainingOnNegativeElapsed(elapsed: int)
    requires elapsed < 0
    ensures HoursRemaining(elapsed) == 24 + (-elapsed) / SecondsPerHour
    ensures HoursRemaining(elapsed) >= 24
  {
  }

  /** On cooldown the answer is NotYet with the remaining hours, whatever the rules are:
      the rule lookup comes after the cooldown check. */
  lemma CooldownComesFirst(user: User, rules: map<string, RewardRule>, now: int)
    requires user.lastDailyReward.Some?
    requires 0 <= now - UtcSeconds(user.lastDailyReward.value) < CooldownSeconds
    ensures var elapsed := now - UtcSeconds(user.lastDailyReward.value);
      DailyVerdict(user, rules, now) == NotYet(24 - elapsed / SecondsPerHour)
    ensures 1 <= DailyVerdict(user, rules, now).nextRewardIn <= 24
  {
    HoursRemainingIsCeiling(now - UtcSeconds(user.lastDailyReward.value));
  }

  /** An eligible claim without an active "daily_login" rule is a not-found outcome. */
  lemma MissingRuleIsNotFound(user: User, rules: map<string, RewardRule>, now: int)
    requires Cooldown(user.lastDailyReward, now).None?
    ensures DailyVerdict(user, rules, now) == RuleNotFound
            <==> !(DailyLoginKey in rules && rules[DailyLoginKey].active)
  {
  }

  /** A claim succeeds exactly when the cooldown is over (or there was no earlier claim)
      and the active rule exists, and then it credits the rule's points. */
  lemma ClaimedIff(user: User, rules: map<string, RewardRule>, now: int)
    ensures DailyVerdict(user, rules, now).Claimed?
            <==> (user.lastDailyReward.None? ||
                  now - UtcSeconds(user.lastDailyReward.value) >= CooldownSeconds)
                 && DailyLoginKey in rules && rules[DailyLoginKey].active
    ensures DailyVerdict(user, rules, now).Claimed? ==>
              DailyVerdict(user, rules, now) ==
                Claimed(rules[DailyLoginKey].points, user.coins + rules[DailyLoginKey].points)
  {
  }

  /** After a successful claim at `now`, any claim less than 24 hours later is refused,
      so two claims within one window credit at most once. */
  lemma {:induction false} SecondClaimWithinDayRefused(
    user: User, rules: map<string, RewardRule>, now: int, later: int)
    requires DailyVerdict(user, rules, now).Claimed?
    requires now <= later < now + CooldownSeconds
    ensures DailyLoginKey in rules
    ensures var u := Credited(user, rules[DailyLoginKey], now);
      DailyVerdict(u, rules, later) == NotYet(HoursRemaining(later - now)) &&
      1 <= HoursRemaining(later - now) <= 24
  {
    var u := Credited(user, rules[DailyLoginKey], now);
    HoursRemainingIsCeiling(later - now);
    assert Cooldown(u.lastDailyReward, later) == Some(HoursRemaining(later - now));
  }

  /** The scenario of a claim at t0, a retry at t0 + 23h59m (one hour left) and another
      at t0 + 24h01m (credited again). */
  lemma RetryScenario(user: User, rules: map<string, RewardRule>, t0: int)
    requires DailyVerdict(user, rules, t0).Claimed?
    ensures DailyLoginKey in rules
    ensures var u := Credited(user, rules[DailyLoginKey], t0);
      DailyVerdict(u, rules, t0 + 23 * 3600 + 59 * 60) == NotYet(1) &&
      DailyVerdict(u, rules, t0 + 24 * 3600 + 60).Claimed?
  {
    var u := Credited(user, rules[DailyLoginKey], t0);
    assert Cooldown(u.lastDailyReward, t0 + 23 * 3600 + 59 * 60) == Some(1);
  }
}
