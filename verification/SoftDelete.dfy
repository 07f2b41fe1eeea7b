/** Soft-deleted tables behave like plain sets, and a deleted entity never comes back. */
module SoftDelete {
  import opened Schema
  import opened Statements

  // The five tables whose rows are added and removed, as plain sets of keys
  datatype Sets = Sets(
    friendships: set<(Id, Id)>,
    guildMembers: set<(Id, Id)>,
    bans: set<(Id, Id)>,
    roleMembers: set<(Id, Id)>,
    dmMembers: set<(Id, Id)>)

  const EMPTY_SETS := Sets({}, {}, {}, {}, {})

  function LiveView(db: Db): Sets {
    Sets(LiveKeys(db.friendships), LiveKeys(db.guildMembers), LiveKeys(db.bans), LiveKeys(db.roleMembers),
         LiveKeys(db.dmMembers))
  }

  function PlainStep(sets: Sets, s: Statement): Sets {
    match s
    case OnFriendships(CreateFriendship(user, friend, _)) =>
      sets.(friendships := sets.friendships + {(user, friend)})
    case OnFriendships(DeleteFriendship(user, friend)) =>
      sets.(friendships := sets.friendships - {(user, friend), (friend, user)})
    case OnGuildMembers(AddGuildMember(guild, user, _, _, _)) =>
      sets.(guildMembers := sets.guildMembers + {(guild, user)})
    case OnGuildMembers(RemoveGuildMember(guild, user)) =>
      sets.(guildMembers := sets.guildMembers - {(guild, user)})
    case OnBans(CreateBan(guild, user, _)) => sets.(bans := sets.bans + {(guild, user)})
    case OnBans(DeleteBan(guild, user)) => sets.(bans := sets.bans - {(guild, user)})
    case OnRoleMembers(AssignRole(role, user)) => sets.(roleMembers := sets.roleMembers + {(role, user)})
    case OnRoleMembers(RemoveRole(role, user)) => sets.(roleMembers := sets.roleMembers - {(role, user)})
    case OnDmMembers(AddDMChannelMember(channel, user)) => sets.(dmMembers := sets.dmMembers + {(channel, user)})
    case OnDmMembers(RemoveDMChannelMember(channel, user)) => sets.(dmMembers := sets.dmMembers - {(channel, user)})
    case _ => sets
  }

  function PlainAll(statements: seq<Statement>): Sets {
    if statements == [] then EMPTY_SETS
    else PlainStep(PlainAll(statements[..|statements| - 1]), statements[|statements| - 1])
  }

  // The statements of a run that no constraint refused
  function Accepted(statements: seq<Statement>): seq<Statement> {
    if statements == [] then []
    else
      var before, s := statements[..|statements| - 1], statements[|statements| - 1];
      if Check(ExecuteAll(EMPTY_DB, before), s) == Applied then Accepted(before) + [s] else Accepted(before)
  }

  lemma GuildMemberStep(t: Table<(Id, Id), GuildMember>, s: GuildMemberStatement, now: Time)
    ensures LiveKeys(GuildMembersAfter(t, s, now)) ==
              match s
              case AddGuildMember(guild, user, _, _, _) => LiveKeys(t) + {(guild, user)}
              case RemoveGuildMember(guild, user) => LiveKeys(t) - {(guild, user)}
  {
  }

  lemma BanStep(t: Table<(Id, Id), Ban>, s: BanStatement, now: Time)
    ensures LiveKeys(BansAfter(t, s, now)) ==
              match s
              case CreateBan(guild, user, _) => LiveKeys(t) + {(guild, user)}
              case DeleteBan(guild, user) => LiveKeys(t) - {(guild, user)}
  {
  }

  lemma RoleMemberStep(t: Table<(Id, Id), Link>, s: RoleMemberStatement, now: Time)
    ensures LiveKeys(RoleMembersAfter(t, s, now)) ==
              match s
              case AssignRole(role, user) => LiveKeys(t) + {(role, user)}
              case RemoveRole(role, user) => LiveKeys(t) - {(role, user)}
  {
  }

  lemma DmMemberStep(t: Table<(Id, Id), Link>, s: DmMemberStatement, now: Time)
    ensures LiveKeys(DmMembersAfter(t, s, now)) ==
              match s
              case AddDMChannelMember(channel, user) => LiveKeys(t) + {(channel, user)}
              case RemoveDMChannelMember(channel, user) => LiveKeys(t) - {(channel, user)}
  {
  }

  lemma FriendshipStep(t: Table<(Id, Id), Friendship>, s: FriendshipStatement, now: Time)
    ensures LiveKeys(FriendshipsAfter(t, s, now)) ==
              match s
              case CreateFriendship(user, friend, _) => LiveKeys(t) + {(user, friend)}
              case UpdateFriendshipStatus(_, _, _) => LiveKeys(t)
              case DeleteFriendship(user, friend) => LiveKeys(t) - {(user, friend), (friend, user)}
  {
  }

  lemma StepRefinesSets(db: Db, s: Statement)
    ensures LiveView(Execute(db, s)) ==
              if Check(db, s) == Applied then PlainStep(LiveView(db), s) else LiveView(db)
  {
    var now := db.clock + 1;
    if Check(db, s) != Applied {
      assert Execute(db, s) == db.(clock := now);
    } else {
      assert Execute(db, s) == Apply(db, s, now).(clock := now);
      match s
      case OnFriendships(f) => FriendshipStep(db.friendships, f, now);
      case OnGuildMembers(m) => GuildMemberStep(db.guildMembers, m, now);
      case OnBans(b) => BanStep(db.bans, b, now);
      case OnRoleMembers(rm) => RoleMemberStep(db.roleMembers, rm, now);
      case OnDmMembers(dm) => DmMemberStep(db.dmMembers, dm, now);
      case _ =>
    }
  }

  lemma {:induction false} RunsRefineSets(statements: seq<Statement>)
    ensures LiveView(ExecuteAll(EMPTY_DB, statements)) == PlainAll(Accepted(statements))
  {
    if statements == [] {
    } else {
      var before, s := statements[..|statements| - 1], statements[|statements| - 1];
      RunsRefineSets(before);
      StepRefinesSets(ExecuteAll(EMPTY_DB, before), s);
      assert (Accepted(before) + [s])[..|Accepted(before)|] == Accepted(before);
    }
  }

  // ---- entities with generated ids are deleted for good ----

  predicate StaysDeleted<D>(t: Table<Id, D>, t': Table<Id, D>) {
    forall id | id in t && t[id].deleted :: id in t' && t'[id].deleted
  }

  predicate EntitiesStayDeleted(db: Db, db': Db) {
    && StaysDeleted(db.users, db'.users)
    && StaysDeleted(db.guilds, db'.guilds)
    && StaysDeleted(db.roles, db'.roles)
    && StaysDeleted(db.channels, db'.channels)
  }

  lemma UsersStayDeleted(t: Table<Id, User>, s: UserStatement, now: Time)
    requires CheckUser(t, s) == Applied
    ensures StaysDeleted(t, UsersAfter(t, s, now))
  {
  }

  lemma GuildsStayDeleted(db: Db, s: GuildStatement, now: Time)
    requires CheckGuild(db, s) == Applied
    ensures StaysDeleted(db.guilds, GuildsAfter(db.guilds, s, now))
  {
  }

  lemma RolesStayDeleted(db: Db, s: RoleStatement, now: Time)
    requires CheckRole(db, s) == Applied
    ensures StaysDeleted(db.roles, RolesAfter(db.roles, s, now))
  {
  }

  lemma ChannelsStayDeleted(db: Db, s: ChannelStatement, now: Time)
    requires CheckChannel(db, s) == Applied
    ensures StaysDeleted(db.channels, ChannelsAfter(db.channels, s, now))
  {
  }

  lemma StatementsKeepDeletions(db: Db, s: Statement)
    ensures EntitiesStayDeleted(db, Execute(db, s))
  {
    var now := db.clock + 1;
    if Check(db, s) != Applied {
      assert Execute(db, s) == db.(clock := now);
    } else {
      assert Execute(db, s) == Apply(db, s, now).(clock := now);
      match s
      case OnUsers(u) => UsersStayDeleted(db.users, u, now);
      case OnGuilds(g) => GuildsStayDeleted(db, g, now);
      case OnRoles(r) => RolesStayDeleted(db, r, now);
      case OnChannels(c) => ChannelsStayDeleted(db, c, now);
      case _ =>
    }
  }

  lemma {:induction false} DeletionIsPermanent(db: Db, statements: seq<Statement>)
    ensures EntitiesStayDeleted(db, ExecuteAll(db, statements))
  {
    if statements == [] {
    } else {
      var before, s := statements[..|statements| - 1], statements[|statements| - 1];
      DeletionIsPermanent(db, before);
      StatementsKeepDeletions(ExecuteAll(db, before), s);
    }
  }
}
