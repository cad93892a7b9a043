/** The leaderboard: users ordered by coins, highest first, cut to `limit` entries and
    numbered from 1. The store's sort stage is modelled by an insertion sort; it promises
    nothing about the order of users with equal coins. */
module Leaderboard {
  import opened Records

  datatype LeaderboardEntry = LeaderboardEntry(id: string, name: string, coins: int, rank: int)

  /** Coins never increase from one position to a later one. */
  predicate CoinsDescending(s: seq<User>) {
    forall i, j :: 0 <= i < j < |s| ==> s[i].coins >= s[j].coins
  }

  /** `u` placed in front of the first user of `s` with no more coins than `u`. */
  function Insert(u: User, s: seq<User>): (r: seq<User>)
    ensures |r| == |s| + 1
    ensures multiset(r) == multiset(s) + multiset{u}
  {
    if s == [] || u.coins >= s[0].coins then [u] + s
    else
      assert s == [s[0]] + s[1..];
      [s[0]] + Insert(u, s[1..])
  }

  /** The users ordered by coins, highest first. */
  function SortByCoins(users: seq<User>): (r: seq<User>)
    ensures |r| == |users|
  {
    if users == [] then [] else Insert(users[0], SortByCoins(users[1..]))
  }

  lemma {:induction false} InsertKeepsOrder(u: User, s: seq<User>)
    requires CoinsDescending(s)
    ensures CoinsDescending(Insert(u, s))
    ensures Insert(u, s)[0].coins == (if s == [] || u.coins >= s[0].coins then u.coins else s[0].coins)
  {
    if s == [] || u.coins >= s[0].coins {
    } else {
      InsertKeepsOrder(u, s[1..]);
      var r := Insert(u, s[1..]);
      assert Insert(u, s) == [s[0]] + r;
      assert r[0].coins <= s[0].coins by {
        if |s| > 1 && u.coins < s[1].coins { assert r[0] == s[1]; }
      }
    }
  }

  /** The sort yields coins in non-increasing order. */
  lemma {:induction false} SortByCoinsDescending(users: seq<User>)
    ensures CoinsDescending(SortByCoins(users))
  {
    if users != [] {
      SortByCoinsDescending(users[1..]);
      InsertKeepsOrder(users[0], SortByCoins(users[1..]));
    }
  }

  /** The sort neither drops nor invents a user. */
  lemma {:induction false} SortByCoinsPermutes(users: seq<User>)
    ensures multiset(SortByCoins(users)) == multiset(users)
  {
    if users != [] {
      SortByCoinsPermutes(users[1..]);
      assert users == [users[0]] + users[1..];
    }
  }

  /** `s` is one of the orders the store's sort may produce for `users`: the same users,
      coins non-increasing, any order among equal balances. */
  predicate SortedPermutationOf(s: seq<User>, users: seq<User>) {
    multiset(s) == multiset(users) && CoinsDescending(s)
  }

  /** The insertion sort is one such order. */
  lemma SortByCoinsIsSortedPermutation(users: seq<User>)
    ensures SortedPermutationOf(SortByCoins(users), users)
  {
    SortByCoinsDescending(users);
    SortByCoinsPermutes(users);
  }

  /** A user at two positions of `s` occurs at least twice in its multiset. */
  lemma RepeatCountsTwice(s: seq<User>, i: int, j: int)
    requires 0 <= i < j < |s| && s[i] == s[j]
    ensures multiset(s)[s[i]] >= 2
  {
    assert s == s[..j] + [s[j]] + s[j + 1..];
    assert s[i] == s[..j][i];
  }

  function Min(a: int, b: int): int { if a <= b then a else b }

  /** The entry of `u` at position `i` of the leaderboard. */
  function EntryAt(u: User, i: nat): (r: LeaderboardEntry)
    ensures r.rank >= 1 && r.rank - 1 == i
    ensures r.id == u.id && r.name == u.name && r.coins == u.coins
  {
    LeaderboardEntry(u.id, u.name, u.coins, i + 1)
  }

  /** The leaderboard: the first `limit` users of some order by coins, each with rank
      position + 1. Which of several users with equal coins comes first is not fixed.
      A limit below 1 is refused by the store's `$limit` stage and is not modelled. */
  method GetLeaderboard(users: seq<User>, limit: int) returns (entries: seq<LeaderboardEntry>)
    requires limit >= 1
    ensures |entries| == Min(limit, |users|)
    ensures forall i :: 0 <= i < |entries| ==> entries[i].rank == i + 1
    ensures forall i, j :: 0 <= i < j < |entries| ==> entries[i].coins >= entries[j].coins
    ensures exists s :: SortedPermutationOf(s, users) && |entries| <= |s| &&
              forall i :: 0 <= i < |entries| ==> entries[i] == EntryAt(s[i], i)
  {
    var sorted := SortByCoins(users);
    SortByCoinsIsSortedPermutation(users);
    var results := sorted;
    if |results| > limit {
      results := results[..limit];
    }
    entries := [];
    var i := 0;
    while i < |results|
      invariant 0 <= i <= |results|
      invariant |entries| == i
      invariant forall k :: 0 <= k < i ==> entries[k] == EntryAt(results[k], k)
    {
      entries := entries + [EntryAt(results[i], i)];
      i := i + 1;
    }
    assert forall k :: 0 <= k < |entries| ==> entries[k] == EntryAt(sorted[k], k);
  }

  /** The users left out of the first `n` of any order by coins have no more coins than
      any user kept, and the kept and the left-out users together are exactly the users. */
  lemma TopUsersKept(users: seq<User>, s: seq<User>, n: nat)
    requires SortedPermutationOf(s, users) && n <= |s|
    ensures multiset(s[..n]) + multiset(s[n..]) == multiset(users)
    ensures forall i, j :: 0 <= i < n <= j < |s| ==> s[i].coins >= s[j].coins
  {
    assert s == s[..n] + s[n..];
  }

  /** Every user is on the board cut from any order by coins, or has no more coins than
      the board's last entry. */
  lemma LeftOutHaveNoMoreCoins(users: seq<User>, s: seq<User>, limit: int, u: User)
    requires SortedPermutationOf(s, users)
    requires 1 <= limit < |s| && u in users
    ensures u in s[..limit] || u.coins <= s[limit - 1].coins
  {
    TopUsersKept(users, s, limit);
    assert u in multiset(users);
    if u !in s[..limit] {
      assert u in multiset(s[limit..]);
      var j :| limit <= j < |s| && s[j] == u;
    }
  }

  /** Among users with 50, 50 and 30 coins, any order by coins puts the 30 last. */
  lemma LowestBalanceLast(a: User, b: User, c: User, s: seq<User>)
    requires a.coins == 50 && b.coins == 50 && c.coins == 30
    requires SortedPermutationOf(s, [a, b, c])
    ensures |s| == 3 && s[2].coins == 30
  {
    assert multiset(s) == multiset{a, b, c};
    assert |s| == 3 by { assert |multiset(s)| == |multiset{a, b, c}|; }
    assert c in multiset(s);
    var k :| 0 <= k < |s| && s[k] == c;
    assert s[2] in multiset(s);
  }

  /** Tied balances still get distinct, consecutive ranks: with balances 50, 50, 30 and
      limit 3 the ranks are 1, 2, 3, and whichever of the tied users comes first, the
      last entry is the one with 30 coins. */
  method TiedBalancesGetDistinctRanks(a: User, b: User, c: User)
    requires a.coins == 50 && b.coins == 50 && c.coins == 30
  {
    var entries := GetLeaderboard([a, b, c], 3);
    assert |entries| == 3;
    assert entries[0].rank == 1 && entries[1].rank == 2 && entries[2].rank == 3;
    var s: seq<User> :| SortedPermutationOf(s, [a, b, c]) && |entries| <= |s| &&
                        forall i :: 0 <= i < |entries| ==> entries[i] == EntryAt(s[i], i);
    LowestBalanceLast(a, b, c, s);
    assert entries[2].coins == 30;
  }
}
