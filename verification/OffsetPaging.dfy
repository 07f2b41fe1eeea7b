/** LIMIT/OFFSET paging of a sorted, filtered table: the pages tile the result and the count query agrees. */
module OffsetPaging {
  import opened Schema
  import opened Statements
  import opened Integrity

  // A result in the order of an ORDER BY clause: every matching key once, none before one that is less. Keys that tie
  // may come either way.
  ghost predicate SortedResult<K(!new)>(result: seq<K>, matching: set<K>, less: (K, K) -> bool) {
    && (forall i, j | 0 <= i < j < |result| :: result[i] != result[j] && !less(result[j], result[i]))
    && (forall k :: k in result <==> k in matching)
  }

  // No two matching keys tie.
  ghost predicate Decides<K(!new)>(less: (K, K) -> bool, matching: set<K>) {
    forall a, b | a in matching && b in matching :: a == b || less(a, b) || less(b, a)
  }

  function Min(a: nat, b: nat): nat {
    if a < b then a else b
  }

  // LIMIT limit OFFSET offset
  function Page<K>(result: seq<K>, limit: nat, offset: nat): seq<K> {
    result[Min(offset, |result|)..Min(offset + limit, |result|)]
  }

  // Pages 0, 1, 2, ...: each query sorts again, so each sees a result of its own.
  function Pages<K>(results: seq<seq<K>>, limit: nat, first: nat): seq<K> {
    if results == [] then [] else Page(results[0], limit, first * limit) + Pages(results[1..], limit, first + 1)
  }

  lemma HeadIsLeast<K(!new)>(a: seq<K>, matching: set<K>, less: (K, K) -> bool, key: K)
    requires a != [] && SortedResult(a, matching, less) && key in matching
    ensures key == a[0] || !less(key, a[0])
  {
    assert key in a;
  }

  lemma {:induction false} SortedResultIsUnique<K(!new)>(a: seq<K>, b: seq<K>, matching: set<K>, less: (K, K) -> bool)
    requires Decides(less, matching)
    requires SortedResult(a, matching, less) && SortedResult(b, matching, less)
    ensures a == b
  {
    assert a != [] ==> a[0] in b;
    assert b != [] ==> b[0] in a;
    if a == [] {
    } else {
      HeadIsLeast(a, matching, less, b[0]);
      HeadIsLeast(b, matching, less, a[0]);
      assert a[0] == b[0];
      TailIsSorted(a, matching, less);
      TailIsSorted(b, matching, less);
      SortedResultIsUnique(a[1..], b[1..], matching - {a[0]}, less);
    }
  }

  lemma TailIsSorted<K(!new)>(a: seq<K>, matching: set<K>, less: (K, K) -> bool)
    requires a != [] && SortedResult(a, matching, less)
    ensures SortedResult(a[1..], matching - {a[0]}, less)
  {
    forall k ensures k in a[1..] <==> k in matching - {a[0]} {
      if k in matching - {a[0]} {
        assert k in a;
      }
      if k in a[1..] {
        assert k in a;
      }
    }
  }

  lemma {:induction false} ResultSize<K(!new)>(a: seq<K>, matching: set<K>, less: (K, K) -> bool)
    requires SortedResult(a, matching, less)
    ensures |a| == |matching|
  {
    if a == [] {
      assert forall k | k in matching :: k in a;
      assert matching == {};
    } else {
      TailIsSorted(a, matching, less);
      ResultSize(a[1..], matching - {a[0]}, less);
      assert a[0] in a;
    }
  }

  lemma NextOffset(limit: nat, first: nat)
    ensures (first + 1) * limit == first * limit + limit
  {
  }

  lemma PagesMeet<K>(result: seq<K>, offset: nat, limit: nat)
    ensures Page(result, limit, offset) + result[Min(offset + limit, |result|)..] == result[Min(offset, |result|)..]
  {
  }

  lemma {:induction false} SamePagesTile<K>(
    result: seq<K>, results: seq<seq<K>>, limit: nat, first: nat, pages: nat)
    requires forall r | r in results :: r == result
    requires pages == first + |results| && pages * limit >= |result|
    ensures Pages(results, limit, first) == result[Min(first * limit, |result|)..]
  {
    if results == [] {
    } else {
      NextOffset(limit, first);
      assert results[0] in results;
      forall r | r in results[1..] ensures r == result {
        assert r in results;
      }
      SamePagesTile(result, results[1..], limit, first + 1, pages);
      PagesMeet(result, first * limit, limit);
    }
  }

  // Enough pages, one after the other, are the whole result: nothing skipped, nothing repeated, as many rows as
  // the count query says.
  lemma PagesTile<K(!new)>(results: seq<seq<K>>, matching: set<K>, less: (K, K) -> bool, limit: nat)
    requires Decides(less, matching) && results != []
    requires forall r | r in results :: SortedResult(r, matching, less)
    requires |results| * limit >= |matching|
    ensures Pages(results, limit, 0) == results[0]
    ensures SortedResult(Pages(results, limit, 0), matching, less) && |Pages(results, limit, 0)| == |matching|
  {
    assert results[0] in results;
    forall r | r in results ensures r == results[0] {
      SortedResultIsUnique(r, results[0], matching, less);
    }
    ResultSize(results[0], matching, less);
    SamePagesTile(results[0], results, limit, 0, |results|);
    assert results[0][0..] == results[0];
  }

  // ---- ORDER BY joined_at never ties ----

  predicate JoinTimesDistinct(t: Table<(Id, Id), GuildMember>) {
    forall a, b | a in t && b in t && t[a].data.joinedAt == t[b].data.joinedAt :: a == b
  }

  predicate JoinedBefore(t: Table<(Id, Id), GuildMember>, now: Time) {
    forall key | key in t :: t[key].data.joinedAt <= now
  }

  lemma MembersKeepJoinTimes(t: Table<(Id, Id), GuildMember>, s: GuildMemberStatement, now: Time)
    requires JoinTimesDistinct(t) && now > 0 && JoinedBefore(t, now - 1)
    ensures JoinTimesDistinct(GuildMembersAfter(t, s, now)) && JoinedBefore(GuildMembersAfter(t, s, now), now)
  {
  }

  lemma StatementKeepsJoinTimes(db: Db, s: Statement)
    requires JoinTimesDistinct(db.guildMembers) && JoinedBefore(db.guildMembers, db.clock)
    ensures var db' := Execute(db, s);
            JoinTimesDistinct(db'.guildMembers) && JoinedBefore(db'.guildMembers, db'.clock)
  {
    MembersAfterExecute(db, s);
    if s.OnGuildMembers? {
      MembersKeepJoinTimes(db.guildMembers, s.m, db.clock + 1);
    }
  }

  lemma MembersAfterExecute(db: Db, s: Statement)
    ensures Execute(db, s).clock == db.clock + 1
    ensures Execute(db, s).guildMembers == db.guildMembers ||
            (s.OnGuildMembers? &&
             Execute(db, s).guildMembers == GuildMembersAfter(db.guildMembers, s.m, db.clock + 1))
  {
  }

  lemma {:induction false} JoinTimesNeverTie(statements: seq<Statement>)
    ensures var db := ExecuteAll(EMPTY_DB, statements);
            JoinTimesDistinct(db.guildMembers) && JoinedBefore(db.guildMembers, db.clock)
  {
    if statements == [] {
    } else {
      JoinTimesNeverTie(statements[..|statements| - 1]);
      StatementKeepsJoinTimes(ExecuteAll(EMPTY_DB, statements[..|statements| - 1]), statements[|statements| - 1]);
    }
  }

  // WHERE guild_id = $1 AND deleted = FALSE
  function MembersOf(db: Db, guild: Id): set<(Id, Id)> {
    set key | key in db.guildMembers && key.0 == guild && Live(db.guildMembers, key)
  }

  // SELECT COUNT(*) over the same WHERE clause
  function CountGuildMembers(db: Db, guild: Id): nat {
    |MembersOf(db, guild)|
  }

  // ORDER BY joined_at
  function JoinedEarlier(db: Db): ((Id, Id), (Id, Id)) -> bool {
    (a: (Id, Id), b: (Id, Id)) =>
      a in db.guildMembers && b in db.guildMembers &&
      db.guildMembers[a].data.joinedAt < db.guildMembers[b].data.joinedAt
  }

  lemma MembersInOrder(db: Db, guild: Id, result: seq<(Id, Id)>)
    requires JoinTimesDistinct(db.guildMembers)
    requires SortedResult(result, MembersOf(db, guild), JoinedEarlier(db))
    ensures var t := db.guildMembers;
            && MembersOf(db, guild) == (set key | key in t && key.0 == guild && !t[key].deleted)
            && (forall key :: key in result <==> key in t && key.0 == guild && !t[key].deleted)
            && (forall i, j | 0 <= i < j < |result| :: t[result[i]].data.joinedAt < t[result[j]].data.joinedAt)
  {
    var t := db.guildMembers;
    forall i, j | 0 <= i < j < |result|
      ensures result[i] in t && result[j] in t && t[result[i]].data.joinedAt < t[result[j]].data.joinedAt
    {
      var a, b := result[i], result[j];
      assert a in result && b in result && a != b && !JoinedEarlier(db)(b, a);
    }
  }

  // Paging the members of a guild in any reachable database
  lemma MemberPagesTile(statements: seq<Statement>, guild: Id, results: seq<seq<(Id, Id)>>, limit: nat)
    requires results != []
    requires var db := ExecuteAll(EMPTY_DB, statements);
             && (forall r | r in results :: SortedResult(r, MembersOf(db, guild), JoinedEarlier(db)))
             && |results| * limit >= CountGuildMembers(db, guild)
    ensures var db := ExecuteAll(EMPTY_DB, statements);
            && SortedResult(Pages(results, limit, 0), MembersOf(db, guild), JoinedEarlier(db))
            && |Pages(results, limit, 0)| == CountGuildMembers(db, guild)
    ensures var t, pages := ExecuteAll(EMPTY_DB, statements).guildMembers, Pages(results, limit, 0);
            && (forall key :: key in pages <==> key in t && key.0 == guild && !t[key].deleted)
            && (forall i, j | 0 <= i < j < |pages| :: t[pages[i]].data.joinedAt < t[pages[j]].data.joinedAt)
            && |pages| == |set key | key in t && key.0 == guild && !t[key].deleted|
  {
    var db := ExecuteAll(EMPTY_DB, statements);
    JoinTimesNeverTie(statements);
    PagesTile(results, MembersOf(db, guild), JoinedEarlier(db), limit);
    MembersInOrder(db, guild, Pages(results, limit, 0));
  }

  // ---- ORDER BY username never ties ----

  // WHERE username ILIKE ... AND deleted = FALSE, for any match on names
  function FoundUsers(db: Db, matches: string -> bool): set<Id> {
    set id | id in db.users && matches(db.users[id].data.username) && Live(db.users, id)
  }

  // ORDER BY username, in the strict order of the collation
  function NameBefore(db: Db, collation: (string, string) -> bool): (Id, Id) -> bool {
    (a: Id, b: Id) =>
      a in db.users && b in db.users && collation(db.users[a].data.username, db.users[b].data.username)
  }

  ghost predicate StrictTotalOrder(collation: (string, string) -> bool) {
    && (forall a, b :: collation(a, b) ==> !collation(b, a))
    && (forall a, b, c :: collation(a, b) && collation(b, c) ==> collation(a, c))
    && (forall a, b :: a == b || collation(a, b) || collation(b, a))
  }

  lemma FoundInOrder(db: Db, matches: string -> bool, collation: (string, string) -> bool, result: seq<Id>)
    requires StrictTotalOrder(collation) && UsersDistinct(db.users)
    requires SortedResult(result, FoundUsers(db, matches), NameBefore(db, collation))
    ensures var t := db.users;
            && FoundUsers(db, matches) == (set id | id in t && matches(t[id].data.username) && !t[id].deleted)
            && (forall id :: id in result <==> id in t && matches(t[id].data.username) && !t[id].deleted)
            && (forall i, j | 0 <= i < j < |result| ::
                  collation(t[result[i]].data.username, t[result[j]].data.username))
  {
    var t := db.users;
    forall i, j | 0 <= i < j < |result|
      ensures result[i] in t && result[j] in t
      ensures collation(t[result[i]].data.username, t[result[j]].data.username)
    {
      var a, b := result[i], result[j];
      assert a in result && b in result && a != b && !NameBefore(db, collation)(b, a);
    }
  }

  // Paging a user search in any reachable database, for any collation that orders all names
  lemma UserPagesTile(statements: seq<Statement>, matches: string -> bool, collation: (string, string) -> bool,
                      results: seq<seq<Id>>, limit: nat)
    requires StrictTotalOrder(collation)
    requires results != []
    requires var db := ExecuteAll(EMPTY_DB, statements);
             && (forall r | r in results :: SortedResult(r, FoundUsers(db, matches), NameBefore(db, collation)))
             && |results| * limit >= |FoundUsers(db, matches)|
    ensures var db := ExecuteAll(EMPTY_DB, statements);
            && SortedResult(Pages(results, limit, 0), FoundUsers(db, matches), NameBefore(db, collation))
            && |Pages(results, limit, 0)| == |FoundUsers(db, matches)|
    ensures var t, pages := ExecuteAll(EMPTY_DB, statements).users, Pages(results, limit, 0);
            && (forall id :: id in pages <==> id in t && matches(t[id].data.username) && !t[id].deleted)
            && (forall i, j | 0 <= i < j < |pages| :: collation(t[pages[i]].data.username, t[pages[j]].data.username))
            && |pages| == |set id | id in t && matches(t[id].data.username) && !t[id].deleted|
  {
    var db := ExecuteAll(EMPTY_DB, statements);
    EveryReachableDbIsConsistent(statements);
    PagesTile(results, FoundUsers(db, matches), NameBefore(db, collation), limit);
    FoundInOrder(db, matches, collation, Pages(results, limit, 0));
  }
}
