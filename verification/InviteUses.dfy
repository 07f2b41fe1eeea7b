/** Invites and the log of their uses: the joined, paged list of an invite's uses agrees with the plain count. */
module InviteUses {
  import opened Schema
  import opened Statements
  import opened Integrity
  import opened OffsetPaging

  datatype Invite = Invite(guild: Id, channel: Id, creator: Id, maxUses: int, uses: int, expiresAt: Option<Time>,
                           createdAt: Time)

  // A row of invite_uses is inserted once and never written again.
  datatype InviteUse = InviteUse(code: string, guild: Id, user: Id, inviter: Id, usedAt: Time)

  datatype Store = Store(db: Db, invites: Table<string, Invite>, uses: map<Id, InviteUse>)

  const EMPTY_STORE := Store(EMPTY_DB, map[], map[])

  // invites.uses is an INTEGER column.
  const MAX_INTEGER := 0x7FFF_FFFF

  datatype InviteStatement =
    | Other(s: Statement)
    | CreateInvite(code: string, guild: Id, channel: Id, creator: Id, maxUses: int, expiresAt: Option<Time>)
    | IncrementInviteUses(code: string)
    | DeleteInvite(code: string)
    | RecordInviteUse(id: Id, code: string, guild: Id, user: Id, inviter: Id)

  function CheckInvite(store: Store, s: InviteStatement): Outcome {
    match s
    case Other(s) => Check(store.db, s)
    case CreateInvite(code, guild, channel, creator, _, _) =>
      if code in store.invites then UniqueViolation
      else References(guild in store.db.guilds && channel in store.db.channels && creator in store.db.users)
    case RecordInviteUse(id, code, guild, user, inviter) =>
      if id in store.uses then UniqueViolation
      else References(code in store.invites && guild in store.db.guilds && user in store.db.users &&
                      inviter in store.db.users)
    case _ => Applied
  }

  function InvitesAfter(t: Table<string, Invite>, s: InviteStatement, now: Time): Table<string, Invite> {
    match s
    case CreateInvite(code, guild, channel, creator, maxUses, expiresAt) =>
      Upsert(t, code, Invite(guild, channel, creator, maxUses, 0, expiresAt, now), now)
    case IncrementInviteUses(code) =>
      if code in t && t[code].data.uses < MAX_INTEGER
      then Edit(t, code, t[code].data.(uses := t[code].data.uses + 1))
      else t
    case DeleteInvite(code) => SoftDelete(t, code, now)
    case _ => t
  }

  function UsesAfter(uses: map<Id, InviteUse>, s: InviteStatement, now: Time): map<Id, InviteUse> {
    match s
    case RecordInviteUse(id, code, guild, user, inviter) => uses[id := InviteUse(code, guild, user, inviter, now)]
    case _ => uses
  }

  function Perform(store: Store, s: InviteStatement): Store {
    var now := store.db.clock + 1;
    match s
    case Other(s) => store.(db := Execute(store.db, s))
    case _ =>
      if CheckInvite(store, s) == Applied
      then Store(store.db.(clock := now), InvitesAfter(store.invites, s, now), UsesAfter(store.uses, s, now))
      else store.(db := store.db.(clock := now))
  }

  function PerformAll(statements: seq<InviteStatement>): Store {
    if statements == [] then EMPTY_STORE
    else Perform(PerformAll(statements[..|statements| - 1]), statements[|statements| - 1])
  }

  class Queries {
    var db: Db
    var invites: Table<string, Invite>
    var uses: map<Id, InviteUse>

    function State(): Store
      reads this
    {
      Store(db, invites, uses)
    }

    constructor ()
      ensures State() == EMPTY_STORE
    {
      db, invites, uses := EMPTY_DB, map[], map[];
    }

    method CreateInvite(code: string, guild: Id, channel: Id, creator: Id, maxUses: int, expiresAt: Option<Time>)
      returns (outcome: Outcome)
      modifies this
      ensures var s := InviteStatement.CreateInvite(code, guild, channel, creator, maxUses, expiresAt);
              outcome == CheckInvite(old(State()), s) && State() == Perform(old(State()), s)
      ensures db == old(db).(clock := old(db).clock + 1) && uses == old(uses)
      ensures outcome == if code in old(invites) then UniqueViolation
                         else if guild in db.guilds && channel in db.channels && creator in db.users then Applied
                         else ForeignKeyViolation
      ensures outcome != Applied ==> invites == old(invites)
      ensures outcome == Applied ==>
                invites == old(invites)[code := Row(
                  Invite(guild := guild, channel := channel, creator := creator, maxUses := maxUses, uses := 0,
                         expiresAt := expiresAt, createdAt := db.clock), false, db.clock)]
    {
      db := db.(clock := db.clock + 1);
      if code in invites {
        return UniqueViolation;
      }
      if guild !in db.guilds || channel !in db.channels || creator !in db.users {
        return ForeignKeyViolation;
      }
      var invite := Invite(guild, channel, creator, maxUses, 0, expiresAt, db.clock);
      invites := invites[code := Row(invite, false, db.clock)];
      return Applied;
    }

    method IncrementInviteUses(code: string)
      modifies this
      ensures State() == Perform(old(State()), InviteStatement.IncrementInviteUses(code))
      ensures db == old(db).(clock := old(db).clock + 1) && uses == old(uses)
      ensures code in old(invites) && old(invites)[code].data.uses < 0x7FFF_FFFF ==>
                var was := old(invites)[code];
                invites == old(invites)[code :=
                  Row(was.data.(uses := was.data.uses + 1), was.deleted, was.updatedAt)]
      ensures code !in old(invites) || old(invites)[code].data.uses >= 0x7FFF_FFFF ==> invites == old(invites)
    {
      db := db.(clock := db.clock + 1);
      if code in invites && invites[code].data.uses < MAX_INTEGER {
        var invite := invites[code].data;
        invites := invites[code := invites[code].(data := invite.(uses := invite.uses + 1))];
      }
    }

    method DeleteInvite(code: string)
      modifies this
      ensures State() == Perform(old(State()), InviteStatement.DeleteInvite(code))
      ensures db == old(db).(clock := old(db).clock + 1) && uses == old(uses)
      ensures invites == if code in old(invites)
                         then old(invites)[code := Row(old(invites)[code].data, true, db.clock)]
                         else old(invites)
    {
      db := db.(clock := db.clock + 1);
      if code in invites {
        invites := invites[code := invites[code].(deleted := true, updatedAt := db.clock)];
      }
    }

    method RecordInviteUse(id: Id, code: string, guild: Id, user: Id, inviter: Id) returns (outcome: Outcome)
      modifies this
      ensures var s := InviteStatement.RecordInviteUse(id, code, guild, user, inviter);
              outcome == CheckInvite(old(State()), s) && State() == Perform(old(State()), s)
      ensures db == old(db).(clock := old(db).clock + 1) && invites == old(invites)
      ensures outcome == if id in old(uses) then UniqueViolation
                         else if code in invites && guild in db.guilds && user in db.users && inviter in db.users
                         then Applied
                         else ForeignKeyViolation
      ensures outcome != Applied ==> uses == old(uses)
      ensures outcome == Applied ==>
                uses == old(uses)[id :=
                  InviteUse(code := code, guild := guild, user := user, inviter := inviter, usedAt := db.clock)]
    {
      db := db.(clock := db.clock + 1);
      if id in uses {
        return UniqueViolation;
      }
      if code !in invites || guild !in db.guilds || user !in db.users || inviter !in db.users {
        return ForeignKeyViolation;
      }
      uses := uses[id := InviteUse(code, guild, user, inviter, db.clock)];
      return Applied;
    }
  }

  // ---- references of uses never dangle, and no two uses share a time ----

  predicate Resolves(store: Store, use: InviteUse) {
    && use.code in store.invites && use.guild in store.db.guilds
    && use.user in store.db.users && use.inviter in store.db.users
  }

  predicate UsesResolve(store: Store) {
    forall id | id in store.uses :: Resolves(store, store.uses[id])
  }

  predicate UseTimesDistinct(store: Store) {
    && (forall id | id in store.uses :: store.uses[id].usedAt <= store.db.clock)
    && (forall a, b | a in store.uses && b in store.uses && store.uses[a].usedAt == store.uses[b].usedAt :: a == b)
  }

  // No row that a use refers to vanishes.
  predicate KeepsReferenced(store: Store, store': Store) {
    && store.invites.Keys <= store'.invites.Keys
    && store.db.guilds.Keys <= store'.db.guilds.Keys
    && store.db.users.Keys <= store'.db.users.Keys
    && store.db.clock < store'.db.clock
  }

  predicate Adds(store: Store, store': Store, id: Id, use: InviteUse) {
    && id !in store.uses && Resolves(store, use) && use.usedAt == store'.db.clock
    && store'.uses == store.uses[id := use]
  }

  lemma InvitesStay(t: Table<string, Invite>, s: InviteStatement, now: Time)
    ensures t.Keys <= InvitesAfter(t, s, now).Keys
  {
  }

  lemma DbStatementStep(store: Store, s: Statement)
    ensures KeepsReferenced(store, store.(db := Execute(store.db, s)))
  {
    StatementsGrow(store.db, s);
  }

  lemma InviteStatementStep(store: Store, s: InviteStatement)
    requires !s.Other? && CheckInvite(store, s) == Applied
    ensures KeepsReferenced(store, Perform(store, s))
    ensures s.RecordInviteUse? ==>
              var use := InviteUse(s.code, s.guild, s.user, s.inviter, store.db.clock + 1);
              Adds(store, Perform(store, s), s.id, use)
    ensures !s.RecordInviteUse? ==> Perform(store, s).uses == store.uses
  {
    InvitesStay(store.invites, s, store.db.clock + 1);
  }

  lemma StatementStep(store: Store, s: InviteStatement)
    ensures var store' := Perform(store, s);
            && KeepsReferenced(store, store')
            && (|| store'.uses == store.uses
                || exists id: Id, use: InviteUse :: Adds(store, store', id, use))
  {
    if s.Other? {
      DbStatementStep(store, s.s);
    } else if CheckInvite(store, s) == Applied {
      InviteStatementStep(store, s);
    } else {
      assert Perform(store, s) == store.(db := store.db.(clock := store.db.clock + 1));
    }
  }

  lemma ReferencedStay(store: Store, store': Store)
    requires UsesResolve(store) && UseTimesDistinct(store)
    requires KeepsReferenced(store, store') && store'.uses == store.uses
    ensures UsesResolve(store') && UseTimesDistinct(store')
  {
  }

  lemma UseAdded(store: Store, store': Store, id: Id, use: InviteUse)
    requires UsesResolve(store) && UseTimesDistinct(store)
    requires KeepsReferenced(store, store') && Adds(store, store', id, use)
    ensures UsesResolve(store') && UseTimesDistinct(store')
  {
  }

  lemma StatementKeepsUses(store: Store, s: InviteStatement)
    requires UsesResolve(store) && UseTimesDistinct(store)
    ensures UsesResolve(Perform(store, s)) && UseTimesDistinct(Perform(store, s))
  {
    StatementStep(store, s);
    var store' := Perform(store, s);
    if store'.uses == store.uses {
      ReferencedStay(store, store');
    } else {
      var id: Id, use: InviteUse :| Adds(store, store', id, use);
      UseAdded(store, store', id, use);
    }
  }

  lemma {:induction false} EveryReachableStoreResolves(statements: seq<InviteStatement>)
    ensures UsesResolve(PerformAll(statements)) && UseTimesDistinct(PerformAll(statements))
  {
    if statements == [] {
    } else {
      var before, s := statements[..|statements| - 1], statements[|statements| - 1];
      EveryReachableStoreResolves(before);
      StatementKeepsUses(PerformAll(before), s);
    }
  }

  // ---- paging ----

  function UsesOf(store: Store, code: string): set<Id> {
    set id | id in store.uses && store.uses[id].code == code
  }

  // SELECT COUNT(*) FROM invite_uses WHERE invite_code = $1
  function CountInviteUsesByCode(store: Store, code: string): nat {
    |UsesOf(store, code)|
  }

  // FROM invite_uses iu JOIN users u ON u.id = iu.user_id WHERE iu.invite_code = $1; a user row matches at most once
  function JoinedUses(store: Store, code: string): set<Id> {
    set id | id in store.uses && store.uses[id].code == code && store.uses[id].user in store.db.users
  }

  // ... WHERE iu.guild_id = $1
  function JoinedGuildUses(store: Store, guild: Id): set<Id> {
    set id | id in store.uses && store.uses[id].guild == guild && store.uses[id].user in store.db.users
  }

  // ORDER BY used_at DESC
  function UsedLater(store: Store): (Id, Id) -> bool {
    (a: Id, b: Id) => a in store.uses && b in store.uses && store.uses[a].usedAt > store.uses[b].usedAt
  }

  lemma NewestUseFirst(store: Store, result: seq<Id>, matching: set<Id>)
    requires UseTimesDistinct(store) && matching <= store.uses.Keys
    requires SortedResult(result, matching, UsedLater(store))
    ensures forall i, j | 0 <= i < j < |result| ::
              result[i] in store.uses && result[j] in store.uses &&
              store.uses[result[i]].usedAt > store.uses[result[j]].usedAt
  {
    forall i, j | 0 <= i < j < |result|
      ensures result[i] in store.uses && result[j] in store.uses
      ensures store.uses[result[i]].usedAt > store.uses[result[j]].usedAt
    {
      assert result[i] in result && result[j] in result && !UsedLater(store)(result[j], result[i]);
    }
  }

  // The pages of an invite's uses hold every use once, newest first, as many as the count that ignores the join.
  lemma InviteUsePagesTile(statements: seq<InviteStatement>, code: string, results: seq<seq<Id>>, limit: nat)
    requires results != []
    requires var store := PerformAll(statements);
             && (forall r | r in results :: SortedResult(r, JoinedUses(store, code), UsedLater(store)))
             && |results| * limit >= CountInviteUsesByCode(store, code)
    ensures var store := PerformAll(statements);
            && SortedResult(Pages(results, limit, 0), JoinedUses(store, code), UsedLater(store))
            && |Pages(results, limit, 0)| == CountInviteUsesByCode(store, code)
            && (forall id :: id in Pages(results, limit, 0) <==> id in store.uses && store.uses[id].code == code)
            && (forall i, j | 0 <= i < j < |Pages(results, limit, 0)| ::
                  store.uses[Pages(results, limit, 0)[i]].usedAt > store.uses[Pages(results, limit, 0)[j]].usedAt)
  {
    var store := PerformAll(statements);
    EveryReachableStoreResolves(statements);
    assert JoinedUses(store, code) == UsesOf(store, code);
    PagesTile(results, JoinedUses(store, code), UsedLater(store), limit);
    NewestUseFirst(store, Pages(results, limit, 0), JoinedUses(store, code));
  }

  lemma GuildInviteUsePagesTile(statements: seq<InviteStatement>, guild: Id, results: seq<seq<Id>>, limit: nat)
    requires results != []
    requires var store := PerformAll(statements);
             && (forall r | r in results :: SortedResult(r, JoinedGuildUses(store, guild), UsedLater(store)))
             && |results| * limit >= |JoinedGuildUses(store, guild)|
    ensures var store := PerformAll(statements);
            && SortedResult(Pages(results, limit, 0), JoinedGuildUses(store, guild), UsedLater(store))
            && (forall id :: id in Pages(results, limit, 0) <==> id in store.uses && store.uses[id].guild == guild)
            && (forall i, j | 0 <= i < j < |Pages(results, limit, 0)| ::
                  store.uses[Pages(results, limit, 0)[i]].usedAt > store.uses[Pages(results, limit, 0)[j]].usedAt)
  {
    var store := PerformAll(statements);
    EveryReachableStoreResolves(statements);
    PagesTile(results, JoinedGuildUses(store, guild), UsedLater(store), limit);
    NewestUseFirst(store, Pages(results, limit, 0), JoinedGuildUses(store, guild));
  }

  // In any store at all, the join drops a use, and the list and the count part, exactly when a use's user is missing.
  lemma ListPartsFromCountIff(store: Store, code: string)
    ensures |JoinedUses(store, code)| <= CountInviteUsesByCode(store, code)
    ensures |JoinedUses(store, code)| == CountInviteUsesByCode(store, code) <==>
              forall id | id in store.uses && store.uses[id].code == code :: store.uses[id].user in store.db.users
  {
    var all, joined := UsesOf(store, code), JoinedUses(store, code);
    var dropped := all - joined;
    assert all == joined + dropped && joined * dropped == {};
    assert |joined + dropped| == |joined| + |dropped|;
    if dropped == {} {
      assert joined == all;
      forall id | id in store.uses && store.uses[id].code == code ensures store.uses[id].user in store.db.users {
        assert id in all;
      }
    } else {
      var id :| id in dropped;
      assert |dropped| > 0;
    }
  }
}
