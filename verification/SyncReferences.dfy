/** What the scopes of the Sync queries have to do with each other and with the friend list. */
module SyncReferences {
  import opened Schema
  import opened Statements
  import opened Integrity
  import opened DeltaSync
  import opened SyncQueries
  import opened Friendships

  // What a synced member, role or DM member row refers to is in scope as well.
  lemma ScopesAreClosed(statements: seq<Statement>, viewer: Id)
    ensures var db := ExecuteAll(EMPTY_DB, statements);
            && (forall key | key in GuildMemberScope(db, viewer) ::
                  key.0 in GuildScope(db, viewer) && key.1 in UserScope(db, viewer))
            && (forall id | id in RoleScope(db, viewer) :: db.roles[id].data.guild in GuildScope(db, viewer))
            && (forall key | key in DmMemberScope(db, viewer) :: key.0 in ChannelScope(db, viewer))
  {
    var db := ExecuteAll(EMPTY_DB, statements);
    EveryReachableDbIsConsistent(statements);
    forall key | key in GuildMemberScope(db, viewer)
      ensures key.0 in GuildScope(db, viewer) && key.1 in UserScope(db, viewer)
    {
      assert SharesGuild(db, viewer, key.1);
    }
  }

  // A synced channel's guild is in scope, unless the channel is synced as a DM of the viewer only.
  lemma ChannelGuildIsInScopeIff(statements: seq<Statement>, viewer: Id, id: Id)
    requires id in ChannelScope(ExecuteAll(EMPTY_DB, statements), viewer)
    requires ExecuteAll(EMPTY_DB, statements).channels[id].data.guild.Some?
    ensures var db := ExecuteAll(EMPTY_DB, statements);
            var guild := db.channels[id].data.guild.value;
            && (guild in GuildScope(db, viewer) <==> InGuild(db, viewer, guild))
            && (guild !in GuildScope(db, viewer) ==> InDm(db, viewer, id))
  {
    EveryReachableDbIsConsistent(statements);
  }

  // Everyone on the friend list and everyone with a pending request is synced.
  lemma FriendsAreInScope(db: Db, viewer: Id, users: seq<Id>, dms: seq<(Id, Id)>, friends: seq<(Id, Id)>, user: Id)
    requires IsScan(users, db.users.Keys) && IsScan(dms, db.dmMembers.Keys)
    requires IsScan(friends, db.friendships.Keys)
    ensures Occurrences(ListFriends(db, viewer, users, dms, friends), user) > 0 ==> user in UserScope(db, viewer)
    ensures user in PendingIncoming(db, viewer) + PendingOutgoing(db, viewer) ==> user in UserScope(db, viewer)
  {
    ListsFriendIff(db, viewer, users, dms, friends, user);
    if key :| key in AcceptedBetween(db.friendships, viewer, user) {
      assert Live(db.friendships, key);
    }
  }

  // The partner of a synced DM is synced exactly if it is the viewer, a live friendship row of any status links the
  // two, or it has a member row in a guild where the viewer is live; a DM by itself syncs no profile.
  lemma DmPartnerIsInScopeIff(statements: seq<Statement>, viewer: Id, key: (Id, Id))
    requires key in DmMemberScope(ExecuteAll(EMPTY_DB, statements), viewer)
    ensures var db, partner := ExecuteAll(EMPTY_DB, statements), key.1;
            partner in UserScope(db, viewer) <==>
              || partner == viewer
              || FriendshipsBetween(db, viewer, partner) != {}
              || exists guild: Id :: (guild, partner) in db.guildMembers && InGuild(db, viewer, guild)
  {
    var db, partner := ExecuteAll(EMPTY_DB, statements), key.1;
    EveryReachableDbIsConsistent(statements);
    FriendshipsBetweenIff(db, viewer, partner);
    SharesGuildIff(db, viewer, partner);
  }

  lemma FriendshipsBetweenIff(db: Db, a: Id, b: Id)
    ensures FriendshipsBetween(db, a, b) != {} <==> Live(db.friendships, (a, b)) || Live(db.friendships, (b, a))
  {
    if Live(db.friendships, (a, b)) {
      assert (a, b) in FriendshipsBetween(db, a, b);
    }
    if Live(db.friendships, (b, a)) {
      assert (b, a) in FriendshipsBetween(db, a, b);
    }
  }

  // After an unfriending, and until a new request, the other party is synced exactly while a guild is shared.
  lemma FormerFriendIsInScopeIff(db: Db, a: Id, b: Id, statements: seq<Statement>)
    requires a != b && forall s | s in statements :: !Recreates(s, a, b)
    ensures var db' := ExecuteAll(Execute(db, OnFriendships(DeleteFriendship(a, b))), statements);
            b in UserScope(db', a) <==> b in db'.users && SharesGuild(db', a, b)
  {
    PartedUntilRecreated(db, a, b, statements);
  }

  // ---- after a removal ----

  predicate Readds(s: Statement, guild: Id, user: Id) {
    s.OnGuildMembers? && s.m.AddGuildMember? && s.m.guild == guild && s.m.user == user
  }

  lemma StatementKeepsRemoved(db: Db, s: Statement, guild: Id, user: Id)
    requires !Live(db.guildMembers, (guild, user)) && !Readds(s, guild, user)
    ensures !Live(Execute(db, s).guildMembers, (guild, user))
  {
    if Check(db, s) != Applied {
      assert Execute(db, s).guildMembers == db.guildMembers;
    } else {
      assert Execute(db, s).guildMembers == Apply(db, s, db.clock + 1).guildMembers;
    }
  }

  lemma {:induction false} RemovedUntilAdded(db: Db, guild: Id, user: Id, statements: seq<Statement>)
    requires forall s | s in statements :: !Readds(s, guild, user)
    ensures var db' := ExecuteAll(Execute(db, OnGuildMembers(RemoveGuildMember(guild, user))), statements);
            (guild, user) in db'.guildMembers ==> db'.guildMembers[(guild, user)].deleted
  {
    var removed := Execute(db, OnGuildMembers(RemoveGuildMember(guild, user)));
    if statements == [] {
      assert removed.guildMembers == GuildMembersAfter(db.guildMembers, RemoveGuildMember(guild, user), db.clock + 1);
    } else {
      var before, s := statements[..|statements| - 1], statements[|statements| - 1];
      RemovedUntilAdded(db, guild, user, before);
      StatementKeepsRemoved(ExecuteAll(removed, before), s, guild, user);
    }
  }

  // A removed member is sent nothing more of the guild, whatever runs, until it is added again; a channel of the guild
  // only if it is a live DM member of that channel.
  lemma RemovedMemberIsSentNothing(db: Db, guild: Id, user: Id, statements: seq<Statement>, since: Time)
    requires forall s | s in statements :: !Readds(s, guild, user)
    ensures var db' := ExecuteAll(Execute(db, OnGuildMembers(RemoveGuildMember(guild, user))), statements);
            && guild !in Delta(db'.guilds, GuildScope(db', user), since)
            && (forall id | id in Delta(db'.roles, RoleScope(db', user), since) :: db'.roles[id].data.guild != guild)
            && (forall key | key in Delta(db'.guildMembers, GuildMemberScope(db', user), since) :: key.0 != guild)
            && (forall id | id in Delta(db'.channels, ChannelScope(db', user), since) ::
                  db'.channels[id].data.guild == Some(guild) ==>
                    (id, user) in db'.dmMembers && !db'.dmMembers[(id, user)].deleted)
  {
    RemovedUntilAdded(db, guild, user, statements);
  }

  // ---- two users with a DM channel ----

  // Two users with a DM channel, who were friends or never were
  const ANN := OnUsers(CreateUser(1, "ann#0001", "ann", "a@x", ""))
  const BOB := OnUsers(CreateUser(2, "bob#0002", "bob", "b@x", ""))
  const FRIENDS := OnFriendships(CreateFriendship(1, 2, "accepted"))
  const TALK := OnChannels(CreateDMChannel(9, "DM", 5))
  const ANN_TALKS := OnDmMembers(AddDMChannelMember(9, 1))
  const BOB_TALKS := OnDmMembers(AddDMChannelMember(9, 2))
  const PART := OnFriendships(DeleteFriendship(1, 2))

  predicate TwoUsers(db: Db) {
    && db.users.Keys == {1, 2} && Live(db.users, 2)
    && db.guildMembers == map[] && db.channels == map[] && db.dmMembers == map[]
  }

  lemma TwoUsersExist()
    ensures var db := Execute(Execute(EMPTY_DB, ANN), BOB); TwoUsers(db) && db.friendships == map[]
  {
    var db := Execute(EMPTY_DB, ANN);
    assert db.users == map[1 := Row(User("ann#0001", "ann", "a@x", "", "", "", "offline", "", false, 1), false, 1)];
  }

  predicate Talking(db: Db) {
    && Live(db.users, 2) && db.guildMembers == map[]
    && Live(db.dmMembers, (9, 1)) && Live(db.dmMembers, (9, 2))
  }

  lemma StartTalking(db: Db)
    requires TwoUsers(db)
    ensures var db' := Execute(Execute(Execute(db, TALK), ANN_TALKS), BOB_TALKS);
            Talking(db') && db'.friendships == db.friendships
  {
    var db1 := Execute(db, TALK);
    assert db1.users == db.users && 9 in db1.channels;
    assert db1.guildMembers == map[] && db1.friendships == db.friendships;
    var db2 := Execute(db1, ANN_TALKS);
    assert db2.users == db.users && db2.channels == db1.channels && Live(db2.dmMembers, (9, 1));
    assert db2.guildMembers == map[] && db2.friendships == db.friendships;
  }

  lemma TalkersOutOfScope(db: Db)
    requires Talking(db) && Parted(db, 1, 2)
    ensures (9, 2) in DmMemberScope(db, 1) && Live(db.dmMembers, (9, 2)) && Live(db.users, 2) && 2 !in UserScope(db, 1)
  {
    assert !SharesGuild(db, 1, 2);
  }

  // The DM stays in scope with both members, its partner does not: their profile is no longer synced.
  lemma DmPartnerCanLeaveScope()
    ensures var db := Execute(Execute(Execute(Execute(Execute(Execute(Execute(EMPTY_DB,
                        ANN), BOB), FRIENDS), TALK), ANN_TALKS), BOB_TALKS), PART);
            (9, 2) in DmMemberScope(db, 1) && Live(db.dmMembers, (9, 2)) && Live(db.users, 2) && 2 !in UserScope(db, 1)
  {
    TwoUsersExist();
    var db2 := Execute(Execute(EMPTY_DB, ANN), BOB);
    var db3 := Execute(db2, FRIENDS);
    assert TwoUsers(db3);
    StartTalking(db3);
    var db6 := Execute(Execute(Execute(db3, TALK), ANN_TALKS), BOB_TALKS);
    var db7 := Execute(db6, PART);
    assert db7.users == db6.users && db7.guildMembers == db6.guildMembers && db7.dmMembers == db6.dmMembers;
    PartedUntilRecreated(db6, 1, 2, []);
    TalkersOutOfScope(db7);
  }

  // Opening a DM asks for no friendship, so the partner may never have been in scope.
  lemma StrangersTalkOutOfScope()
    ensures var db := Execute(Execute(Execute(Execute(Execute(EMPTY_DB, ANN), BOB), TALK), ANN_TALKS), BOB_TALKS);
            && db.friendships == map[]
            && (9, 2) in DmMemberScope(db, 1) && Live(db.dmMembers, (9, 2))
            && Live(db.users, 2) && 2 !in UserScope(db, 1)
  {
    TwoUsersExist();
    StartTalking(Execute(Execute(EMPTY_DB, ANN), BOB));
    TalkersOutOfScope(Execute(Execute(Execute(Execute(Execute(EMPTY_DB, ANN), BOB), TALK), ANN_TALKS), BOB_TALKS));
  }
}
