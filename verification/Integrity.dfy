/** What every run of statements keeps: keys never vanish, stamps never run backwards, references resolve. */
module Integrity {
  import opened Schema
  import opened Statements

  // ---- rows stay, and their stamps only move forward ----

  predicate Stamped<K(==), D>(t: Table<K, D>, clock: Time) {
    forall key | key in t :: 0 < t[key].updatedAt <= clock
  }

  // From t to t' no row vanished, and every row written carries the stamp now or the stamp it had.
  predicate Grows<K(==), D>(t: Table<K, D>, t': Table<K, D>, now: Time) {
    && t.Keys <= t'.Keys
    && (forall key | key in t' && key !in t :: t'[key].updatedAt == now)
    && (forall key | key in t :: t'[key].updatedAt == t[key].updatedAt || t'[key].updatedAt == now)
  }

  lemma UsersGrow(t: Table<Id, User>, s: UserStatement, now: Time)
    ensures Grows(t, UsersAfter(t, s, now), now)
  {
  }

  lemma FriendshipsGrow(t: Table<(Id, Id), Friendship>, s: FriendshipStatement, now: Time)
    ensures Grows(t, FriendshipsAfter(t, s, now), now)
  {
  }

  lemma GuildsGrow(t: Table<Id, Guild>, s: GuildStatement, now: Time)
    ensures Grows(t, GuildsAfter(t, s, now), now)
  {
  }

  lemma GuildMembersGrow(t: Table<(Id, Id), GuildMember>, s: GuildMemberStatement, now: Time)
    ensures Grows(t, GuildMembersAfter(t, s, now), now)
  {
  }

  lemma BansGrow(t: Table<(Id, Id), Ban>, s: BanStatement, now: Time)
    ensures Grows(t, BansAfter(t, s, now), now)
  {
  }

  lemma RolesGrow(t: Table<Id, Role>, s: RoleStatement, now: Time)
    ensures Grows(t, RolesAfter(t, s, now), now)
  {
  }

  lemma RoleMembersGrow(t: Table<(Id, Id), Link>, s: RoleMemberStatement, now: Time)
    ensures Grows(t, RoleMembersAfter(t, s, now), now)
  {
  }

  lemma ChannelsGrow(t: Table<Id, Channel>, s: ChannelStatement, now: Time)
    ensures Grows(t, ChannelsAfter(t, s, now), now)
  {
  }

  lemma DmMembersGrow(t: Table<(Id, Id), Link>, s: DmMemberStatement, now: Time)
    ensures Grows(t, DmMembersAfter(t, s, now), now)
  {
  }

  predicate DbStamped(db: Db) {
    && Stamped(db.users, db.clock)
    && Stamped(db.friendships, db.clock)
    && Stamped(db.guilds, db.clock)
    && Stamped(db.guildMembers, db.clock)
    && Stamped(db.bans, db.clock)
    && Stamped(db.roles, db.clock)
    && Stamped(db.roleMembers, db.clock)
    && Stamped(db.channels, db.clock)
    && Stamped(db.dmMembers, db.clock)
  }

  predicate DbGrows(db: Db, db': Db) {
    && Grows(db.users, db'.users, db'.clock)
    && Grows(db.friendships, db'.friendships, db'.clock)
    && Grows(db.guilds, db'.guilds, db'.clock)
    && Grows(db.guildMembers, db'.guildMembers, db'.clock)
    && Grows(db.bans, db'.bans, db'.clock)
    && Grows(db.roles, db'.roles, db'.clock)
    && Grows(db.roleMembers, db'.roleMembers, db'.clock)
    && Grows(db.channels, db'.channels, db'.clock)
    && Grows(db.dmMembers, db'.dmMembers, db'.clock)
  }

  lemma StatementsGrow(db: Db, s: Statement)
    ensures Execute(db, s).clock == db.clock + 1 && DbGrows(db, Execute(db, s))
  {
    var now := db.clock + 1;
    if Check(db, s) != Applied {
      assert Execute(db, s) == db.(clock := now);
    } else {
      assert Execute(db, s) == Apply(db, s, now).(clock := now);
      match s
      case OnUsers(u) => UsersGrow(db.users, u, now);
      case OnFriendships(f) => FriendshipsGrow(db.friendships, f, now);
      case OnGuilds(g) => GuildsGrow(db.guilds, g, now);
      case OnGuildMembers(m) => GuildMembersGrow(db.guildMembers, m, now);
      case OnBans(b) => BansGrow(db.bans, b, now);
      case OnRoles(r) => RolesGrow(db.roles, r, now);
      case OnRoleMembers(rm) => RoleMembersGrow(db.roleMembers, rm, now);
      case OnChannels(c) => ChannelsGrow(db.channels, c, now);
      case OnDmMembers(dm) => DmMembersGrow(db.dmMembers, dm, now);
    }
  }

  // ---- references resolve ----

  predicate Linked<A, B, D>(t: Table<(Id, Id), D>, left: Table<Id, A>, right: Table<Id, B>) {
    forall key | key in t :: key.0 in left && key.1 in right
  }

  predicate GuildPairsResolve(db: Db) {
    Linked(db.guildMembers, db.guilds, db.users) && Linked(db.bans, db.guilds, db.users)
  }

  predicate OtherPairsResolve(db: Db) {
    && Linked(db.friendships, db.users, db.users)
    && Linked(db.roleMembers, db.roles, db.users)
    && Linked(db.dmMembers, db.channels, db.users)
  }

  predicate PairsResolve(db: Db) {
    GuildPairsResolve(db) && OtherPairsResolve(db)
  }

  predicate GuildReferencesResolve(db: Db) {
    && (forall id | id in db.guilds :: db.guilds[id].data.owner in db.users)
    && (forall key | key in db.guildMembers :: !Dangling(db.guildMembers[key].data.invitedBy, db.users))
    && (forall id | id in db.roles :: db.roles[id].data.guild in db.guilds)
  }

  predicate ChannelReferencesResolve(db: Db) {
    && (forall id | id in db.channels :: !Dangling(db.channels[id].data.guild, db.guilds))
    && (forall id | id in db.channels :: !Dangling(db.channels[id].data.parent, db.channels))
  }

  lemma FriendshipsStayLinked(db: Db, f: FriendshipStatement, now: Time)
    requires CheckFriendship(db, f) == Applied && Linked(db.friendships, db.users, db.users)
    ensures Linked(FriendshipsAfter(db.friendships, f, now), db.users, db.users)
  {
  }

  lemma GuildMembersStayLinked(db: Db, m: GuildMemberStatement, now: Time)
    requires CheckGuildMember(db, m) == Applied && Linked(db.guildMembers, db.guilds, db.users)
    ensures Linked(GuildMembersAfter(db.guildMembers, m, now), db.guilds, db.users)
  {
  }

  lemma BansStayLinked(db: Db, b: BanStatement, now: Time)
    requires CheckBan(db, b) == Applied && Linked(db.bans, db.guilds, db.users)
    ensures Linked(BansAfter(db.bans, b, now), db.guilds, db.users)
  {
  }

  lemma RoleMembersStayLinked(db: Db, rm: RoleMemberStatement, now: Time)
    requires CheckRoleMember(db, rm) == Applied && Linked(db.roleMembers, db.roles, db.users)
    ensures Linked(RoleMembersAfter(db.roleMembers, rm, now), db.roles, db.users)
  {
  }

  lemma DmMembersStayLinked(db: Db, dm: DmMemberStatement, now: Time)
    requires CheckDmMember(db, dm) == Applied && Linked(db.dmMembers, db.channels, db.users)
    ensures Linked(DmMembersAfter(db.dmMembers, dm, now), db.channels, db.users)
  {
  }

  lemma StatementsKeepGuildPairs(db: Db, s: Statement)
    requires GuildPairsResolve(db)
    ensures GuildPairsResolve(Execute(db, s))
  {
    var now := db.clock + 1;
    if Check(db, s) != Applied {
      assert Execute(db, s) == db.(clock := now);
    } else {
      assert Execute(db, s) == Apply(db, s, now).(clock := now);
      match s
      case OnUsers(u) => UsersGrow(db.users, u, now);
      case OnGuilds(g) => GuildsGrow(db.guilds, g, now);
      case OnGuildMembers(m) => GuildMembersStayLinked(db, m, now);
      case OnBans(b) => BansStayLinked(db, b, now);
      case _ =>
    }
  }

  lemma StatementsKeepOtherPairs(db: Db, s: Statement)
    requires OtherPairsResolve(db)
    ensures OtherPairsResolve(Execute(db, s))
  {
    var now := db.clock + 1;
    if Check(db, s) != Applied {
      assert Execute(db, s) == db.(clock := now);
    } else {
      assert Execute(db, s) == Apply(db, s, now).(clock := now);
      match s
      case OnUsers(u) => UsersGrow(db.users, u, now);
      case OnFriendships(f) => FriendshipsStayLinked(db, f, now);
      case OnRoles(r) => RolesGrow(db.roles, r, now);
      case OnRoleMembers(rm) => RoleMembersStayLinked(db, rm, now);
      case OnChannels(c) => ChannelsGrow(db.channels, c, now);
      case OnDmMembers(dm) => DmMembersStayLinked(db, dm, now);
      case _ =>
    }
  }

  lemma OwnersStay(db: Db, g: GuildStatement, now: Time)
    requires CheckGuild(db, g) == Applied && forall id | id in db.guilds :: db.guilds[id].data.owner in db.users
    ensures var t := GuildsAfter(db.guilds, g, now); forall id | id in t :: t[id].data.owner in db.users
  {
  }

  lemma InvitersStay(db: Db, m: GuildMemberStatement, now: Time)
    requires CheckGuildMember(db, m) == Applied
    requires forall key | key in db.guildMembers :: !Dangling(db.guildMembers[key].data.invitedBy, db.users)
    ensures var t := GuildMembersAfter(db.guildMembers, m, now);
            forall key | key in t :: !Dangling(t[key].data.invitedBy, db.users)
  {
  }

  lemma RoleGuildsStay(db: Db, r: RoleStatement, now: Time)
    requires CheckRole(db, r) == Applied && forall id | id in db.roles :: db.roles[id].data.guild in db.guilds
    ensures var t := RolesAfter(db.roles, r, now); forall id | id in t :: t[id].data.guild in db.guilds
  {
  }

  lemma StatementsKeepGuildReferences(db: Db, s: Statement)
    requires GuildReferencesResolve(db)
    ensures GuildReferencesResolve(Execute(db, s))
  {
    var now := db.clock + 1;
    if Check(db, s) != Applied {
      assert Execute(db, s) == db.(clock := now);
    } else {
      assert Execute(db, s) == Apply(db, s, now).(clock := now);
      match s
      case OnUsers(u) => UsersGrow(db.users, u, now);
      case OnGuilds(g) =>
        OwnersStay(db, g, now);
        GuildsGrow(db.guilds, g, now);
      case OnGuildMembers(m) => InvitersStay(db, m, now);
      case OnRoles(r) => RoleGuildsStay(db, r, now);
      case _ =>
    }
  }

  lemma ChannelReferencesStay(db: Db, c: ChannelStatement, now: Time)
    requires CheckChannel(db, c) == Applied && ChannelReferencesResolve(db)
    ensures ChannelReferencesResolve(db.(channels := ChannelsAfter(db.channels, c, now)))
  {
  }

  lemma StatementsKeepChannelReferences(db: Db, s: Statement)
    requires ChannelReferencesResolve(db)
    ensures ChannelReferencesResolve(Execute(db, s))
  {
    var now := db.clock + 1;
    if Check(db, s) != Applied {
      assert Execute(db, s) == db.(clock := now);
    } else {
      assert Execute(db, s) == Apply(db, s, now).(clock := now);
      match s
      case OnGuilds(g) => GuildsGrow(db.guilds, g, now);
      case OnChannels(c) => ChannelReferencesStay(db, c, now);
      case _ =>
    }
  }

  // ---- user names and addresses stay unique ----

  predicate UsersDistinct(t: Table<Id, User>) {
    forall u, v | u in t && v in t && u != v ::
      t[u].data.username != t[v].data.username && t[u].data.email != t[v].data.email
  }

  lemma UsersStayDistinct(t: Table<Id, User>, s: UserStatement, now: Time)
    requires UsersDistinct(t) && CheckUser(t, s) == Applied
    ensures UsersDistinct(UsersAfter(t, s, now))
  {
  }

  lemma StatementsKeepUsersDistinct(db: Db, s: Statement)
    requires UsersDistinct(db.users)
    ensures UsersDistinct(Execute(db, s).users)
  {
    if Check(db, s) != Applied {
      assert Execute(db, s) == db.(clock := db.clock + 1);
    } else {
      assert Execute(db, s).users == Apply(db, s, db.clock + 1).users;
      if s.OnUsers? {
        UsersStayDistinct(db.users, s.u, db.clock + 1);
      }
    }
  }

  // ---- over whole runs ----

  predicate Consistent(db: Db) {
    DbStamped(db) && PairsResolve(db) && GuildReferencesResolve(db) && ChannelReferencesResolve(db)
    && UsersDistinct(db.users)
  }

  lemma StatementsKeepConsistency(db: Db, s: Statement)
    requires Consistent(db)
    ensures Consistent(Execute(db, s))
  {
    StatementsKeepGuildPairs(db, s);
    StatementsKeepOtherPairs(db, s);
    StatementsKeepGuildReferences(db, s);
    StatementsKeepChannelReferences(db, s);
    StatementsKeepUsersDistinct(db, s);
    StatementsGrow(db, s);
    GrowthKeepsStamps(db, Execute(db, s));
  }

  lemma GrowthKeepsStamps(db: Db, db': Db)
    requires DbStamped(db) && DbGrows(db, db') && db.clock < db'.clock
    ensures DbStamped(db')
  {
  }

  // From t to t' no row vanished and no stamp went back.
  predicate Forward<K(==), D>(t: Table<K, D>, t': Table<K, D>) {
    t.Keys <= t'.Keys && forall key | key in t :: t[key].updatedAt <= t'[key].updatedAt
  }

  predicate DbForward(db: Db, db': Db) {
    && Forward(db.users, db'.users)
    && Forward(db.friendships, db'.friendships)
    && Forward(db.guilds, db'.guilds)
    && Forward(db.guildMembers, db'.guildMembers)
    && Forward(db.bans, db'.bans)
    && Forward(db.roles, db'.roles)
    && Forward(db.roleMembers, db'.roleMembers)
    && Forward(db.channels, db'.channels)
    && Forward(db.dmMembers, db'.dmMembers)
  }

  lemma GrowthIsForward<K, D>(t: Table<K, D>, t': Table<K, D>, clock: Time, now: Time)
    requires Stamped(t, clock) && clock < now && Grows(t, t', now)
    ensures Forward(t, t')
  {
  }

  lemma DbGrowthIsForward(db: Db, db': Db)
    requires DbStamped(db) && DbGrows(db, db') && db.clock < db'.clock
    ensures DbForward(db, db')
  {
    GrowthIsForward(db.users, db'.users, db.clock, db'.clock);
    GrowthIsForward(db.friendships, db'.friendships, db.clock, db'.clock);
    GrowthIsForward(db.guilds, db'.guilds, db.clock, db'.clock);
    GrowthIsForward(db.guildMembers, db'.guildMembers, db.clock, db'.clock);
    GrowthIsForward(db.bans, db'.bans, db.clock, db'.clock);
    GrowthIsForward(db.roles, db'.roles, db.clock, db'.clock);
    GrowthIsForward(db.roleMembers, db'.roleMembers, db.clock, db'.clock);
    GrowthIsForward(db.channels, db'.channels, db.clock, db'.clock);
    GrowthIsForward(db.dmMembers, db'.dmMembers, db.clock, db'.clock);
  }

  lemma ForwardChain<K, D>(t: Table<K, D>, t': Table<K, D>, t'': Table<K, D>)
    requires Forward(t, t') && Forward(t', t'')
    ensures Forward(t, t'')
  {
  }

  lemma DbForwardChain(db: Db, db': Db, db'': Db)
    requires DbForward(db, db') && DbForward(db', db'')
    ensures DbForward(db, db'')
  {
    ForwardChain(db.users, db'.users, db''.users);
    ForwardChain(db.friendships, db'.friendships, db''.friendships);
    ForwardChain(db.guilds, db'.guilds, db''.guilds);
    ForwardChain(db.guildMembers, db'.guildMembers, db''.guildMembers);
    ForwardChain(db.bans, db'.bans, db''.bans);
    ForwardChain(db.roles, db'.roles, db''.roles);
    ForwardChain(db.roleMembers, db'.roleMembers, db''.roleMembers);
    ForwardChain(db.channels, db'.channels, db''.channels);
    ForwardChain(db.dmMembers, db'.dmMembers, db''.dmMembers);
  }

  // Over any run of statements, in all nine tables
  lemma {:induction false} RunsGoForward(db: Db, statements: seq<Statement>)
    requires DbStamped(db)
    ensures DbStamped(ExecuteAll(db, statements)) && DbForward(db, ExecuteAll(db, statements))
    ensures ExecuteAll(db, statements).clock == db.clock + |statements|
  {
    if statements == [] {
    } else {
      var before, s := statements[..|statements| - 1], statements[|statements| - 1];
      RunsGoForward(db, before);
      var last := ExecuteAll(db, before);
      StatementsGrow(last, s);
      GrowthKeepsStamps(last, Execute(last, s));
      DbGrowthIsForward(last, Execute(last, s));
      DbForwardChain(db, last, Execute(last, s));
    }
  }

  lemma {:induction false} EveryReachableDbIsConsistent(statements: seq<Statement>)
    ensures Consistent(ExecuteAll(EMPTY_DB, statements))
  {
    if statements == [] {
    } else {
      EveryReachableDbIsConsistent(statements[..|statements| - 1]);
      StatementsKeepConsistency(ExecuteAll(EMPTY_DB, statements[..|statements| - 1]),
                                statements[|statements| - 1]);
    }
  }
}
