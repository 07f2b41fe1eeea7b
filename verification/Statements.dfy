/** What each writing query does: one atomic statement at a time, grouped by the table it writes. */
module Statements {
  import opened Schema

  // gen/db/users.sql.go
  datatype UserStatement =
    | CreateUser(id: Id, username: string, displayName: string, email: string, passwordHash: string)
    | UpdateUser(id: Id, newUsername: Option<string>, newDisplayName: Option<string>, newAvatarUrl: Option<string>,
                 newBio: Option<string>, newStatus: Option<string>, newBackgroundColor: Option<string>)
    | VerifyUser(id: Id)
    | DeleteUser(id: Id)

  // gen/db/friendships.sql.go
  datatype FriendshipStatement =
    | CreateFriendship(user: Id, friend: Id, status: string)
    | UpdateFriendshipStatus(user: Id, friend: Id, status: string)
    | DeleteFriendship(user: Id, friend: Id)

  // gen/db/guilds.sql.go
  datatype GuildStatement =
    | CreateGuild(id: Id, name: string, description: string, iconUrl: string, owner: Id)
    | UpdateGuild(id: Id, newName: Option<string>, newDescription: Option<string>, newIconUrl: Option<string>,
                  newBannerUrl: Option<string>)
    | TransferGuildOwnership(id: Id, owner: Id)
    | DeleteGuild(id: Id)

  datatype GuildMemberStatement =
    | AddGuildMember(guild: Id, user: Id, nickname: string, inviteCode: Option<string>, invitedBy: Option<Id>)
    | RemoveGuildMember(guild: Id, user: Id)

  datatype BanStatement =
    | CreateBan(guild: Id, user: Id, reason: string)
    | DeleteBan(guild: Id, user: Id)

  // gen/db/roles.sql.go
  datatype RoleStatement =
    | CreateRole(id: Id, guild: Id, name: string, color: string, position: int)
    | UpdateRole(id: Id, newName: Option<string>, newColor: Option<string>, newPosition: Option<int>)
    | DeleteRole(id: Id)

  datatype RoleMemberStatement =
    | AssignRole(role: Id, user: Id)
    | RemoveRole(role: Id, user: Id)

  // gen/db/channels.sql.go
  datatype ChannelStatement =
    | CreateChannel(id: Id, guild: Option<Id>, name: string, kind: int, topic: string, position: int,
                    parent: Option<Id>)
    | CreateDMChannel(id: Id, name: string, kind: int)
    | UpdateChannel(id: Id, newName: Option<string>, newTopic: Option<string>, newPosition: Option<int>,
                    newParent: Option<Id>)
    | DeleteChannel(id: Id)

  datatype DmMemberStatement =
    | AddDMChannelMember(channel: Id, user: Id)
    | RemoveDMChannelMember(channel: Id, user: Id)

  datatype Statement =
    | OnUsers(u: UserStatement)
    | OnFriendships(f: FriendshipStatement)
    | OnGuilds(g: GuildStatement)
    | OnGuildMembers(m: GuildMemberStatement)
    | OnBans(b: BanStatement)
    | OnRoles(r: RoleStatement)
    | OnRoleMembers(rm: RoleMemberStatement)
    | OnChannels(c: ChannelStatement)
    | OnDmMembers(dm: DmMemberStatement)

  // What the caller sees: success, pgx.ErrNoRows from a RETURNING query, or a constraint error.
  datatype Outcome = Applied | NoRows | UniqueViolation | ForeignKeyViolation

  // ---- the keys and references the schema declares, checked before a statement takes effect ----

  predicate UsernameTaken(t: Table<Id, User>, name: string, except: Option<Id>) {
    exists u | u in t :: Some(u) != except && t[u].data.username == name
  }

  predicate EmailTaken(t: Table<Id, User>, email: string) {
    exists u | u in t :: t[u].data.email == email
  }

  predicate Dangling<D>(reference: Option<Id>, t: Table<Id, D>) {
    reference.Some? && reference.value !in t
  }

  function References(resolve: bool): Outcome {
    if resolve then Applied else ForeignKeyViolation
  }

  function CheckUser(t: Table<Id, User>, s: UserStatement): Outcome {
    match s
    case CreateUser(id, username, _, email, _) =>
      if id in t || UsernameTaken(t, username, None) || EmailTaken(t, email) then UniqueViolation else Applied
    case UpdateUser(id, newUsername, _, _, _, _, _) =>
      if id !in t then NoRows
      else if newUsername.Some? && UsernameTaken(t, newUsername.value, Some(id)) then UniqueViolation
      else Applied
    case VerifyUser(id) => if id in t then Applied else NoRows
    case DeleteUser(_) => Applied
  }

  function CheckFriendship(db: Db, s: FriendshipStatement): Outcome {
    match s
    case CreateFriendship(user, friend, _) => References(user in db.users && friend in db.users)
    case UpdateFriendshipStatus(user, friend, _) => if (user, friend) in db.friendships then Applied else NoRows
    case DeleteFriendship(_, _) => Applied
  }

  function CheckGuild(db: Db, s: GuildStatement): Outcome {
    match s
    case CreateGuild(id, _, _, _, owner) =>
      if id in db.guilds then UniqueViolation else References(owner in db.users)
    case UpdateGuild(id, _, _, _, _) => if id in db.guilds then Applied else NoRows
    case TransferGuildOwnership(id, owner) => if id in db.guilds then References(owner in db.users) else NoRows
    case DeleteGuild(_) => Applied
  }

  function CheckGuildMember(db: Db, s: GuildMemberStatement): Outcome {
    match s
    case AddGuildMember(guild, user, _, _, invitedBy) =>
      References(guild in db.guilds && user in db.users && !Dangling(invitedBy, db.users))
    case RemoveGuildMember(_, _) => Applied
  }

  function CheckBan(db: Db, s: BanStatement): Outcome {
    match s
    case CreateBan(guild, user, _) => References(guild in db.guilds && user in db.users)
    case DeleteBan(_, _) => Applied
  }

  function CheckRole(db: Db, s: RoleStatement): Outcome {
    match s
    case CreateRole(id, guild, _, _, _) =>
      if id in db.roles then UniqueViolation else References(guild in db.guilds)
    case UpdateRole(id, _, _, _) => if id in db.roles then Applied else NoRows
    case DeleteRole(_) => Applied
  }

  function CheckRoleMember(db: Db, s: RoleMemberStatement): Outcome {
    match s
    case AssignRole(role, user) => References(role in db.roles && user in db.users)
    case RemoveRole(_, _) => Applied
  }

  function CheckChannel(db: Db, s: ChannelStatement): Outcome {
    match s
    case CreateChannel(id, guild, _, _, _, _, parent) =>
      if id in db.channels then UniqueViolation
      else References(!Dangling(guild, db.guilds) && !Dangling(parent, db.channels))
    case CreateDMChannel(id, _, _) => if id in db.channels then UniqueViolation else Applied
    case UpdateChannel(id, _, _, _, newParent) =>
      if id in db.channels then References(!Dangling(newParent, db.channels)) else NoRows
    case DeleteChannel(_) => Applied
  }

  function CheckDmMember(db: Db, s: DmMemberStatement): Outcome {
    match s
    case AddDMChannelMember(channel, user) => References(channel in db.channels && user in db.users)
    case RemoveDMChannelMember(_, _) => Applied
  }

  function Check(db: Db, s: Statement): Outcome {
    match s
    case OnUsers(u) => CheckUser(db.users, u)
    case OnFriendships(f) => CheckFriendship(db, f)
    case OnGuilds(g) => CheckGuild(db, g)
    case OnGuildMembers(m) => CheckGuildMember(db, m)
    case OnBans(b) => CheckBan(db, b)
    case OnRoles(r) => CheckRole(db, r)
    case OnRoleMembers(rm) => CheckRoleMember(db, rm)
    case OnChannels(c) => CheckChannel(db, c)
    case OnDmMembers(dm) => CheckDmMember(db, dm)
  }

  // ---- the effect of an accepted statement ----

  // INSERT with defaults deleted = FALSE and updated_at = NOW(); also what every ON CONFLICT DO UPDATE leaves
  function Upsert<K, D>(t: Table<K, D>, key: K, data: D, now: Time): Table<K, D> {
    t[key := Row(data, false, now)]
  }

  // UPDATE ... SET deleted = TRUE, updated_at = NOW() WHERE key
  function SoftDelete<K, D>(t: Table<K, D>, key: K, now: Time): Table<K, D> {
    if key in t then t[key := Row(t[key].data, true, now)] else t
  }

  // UPDATE ... SET <data columns> WHERE key, on a row it finds; deleted and updated_at stay
  function Edit<K, D>(t: Table<K, D>, key: K, data: D): Table<K, D>
    requires key in t
  {
    t[key := t[key].(data := data)]
  }

  // UPDATE ... SET <data columns>, updated_at = NOW() WHERE key, on a row it finds
  function StampedEdit<K, D>(t: Table<K, D>, key: K, data: D, now: Time): Table<K, D>
    requires key in t
  {
    t[key := t[key].(data := data, updatedAt := now)]
  }

  function UsersAfter(t: Table<Id, User>, s: UserStatement, now: Time): Table<Id, User> {
    match s
    case CreateUser(id, username, displayName, email, passwordHash) =>
      Upsert(t, id, User(username, displayName, email, passwordHash, "", "", "offline", "", false, now), now)
    case UpdateUser(id, newUsername, newDisplayName, newAvatarUrl, newBio, newStatus, newBackgroundColor) =>
      if id !in t then t
      else
        var user := t[id].data;
        StampedEdit(t, id, user.(username := Coalesce(newUsername, user.username),
                                 displayName := Coalesce(newDisplayName, user.displayName),
                                 avatarUrl := Coalesce(newAvatarUrl, user.avatarUrl),
                                 bio := Coalesce(newBio, user.bio),
                                 status := Coalesce(newStatus, user.status),
                                 backgroundColor := Coalesce(newBackgroundColor, user.backgroundColor)), now)
    case VerifyUser(id) => if id in t then StampedEdit(t, id, t[id].data.(verified := true), now) else t
    case DeleteUser(id) => SoftDelete(t, id, now)
  }

  function FriendshipsAfter(t: Table<(Id, Id), Friendship>, s: FriendshipStatement, now: Time)
    : Table<(Id, Id), Friendship>
  {
    match s
    case CreateFriendship(user, friend, status) =>
      var key := (user, friend);
      Upsert(t, key, Friendship(status, if key in t then t[key].data.createdAt else now), now)
    case UpdateFriendshipStatus(user, friend, status) =>
      var key := (user, friend);
      if key in t then Edit(t, key, t[key].data.(status := status)) else t
    case DeleteFriendship(user, friend) => SoftDelete(SoftDelete(t, (user, friend), now), (friend, user), now)
  }

  function GuildsAfter(t: Table<Id, Guild>, s: GuildStatement, now: Time): Table<Id, Guild> {
    match s
    case CreateGuild(id, name, description, iconUrl, owner) =>
      Upsert(t, id, Guild(name, description, iconUrl, "", owner, now), now)
    case UpdateGuild(id, newName, newDescription, newIconUrl, newBannerUrl) =>
      if id !in t then t
      else
        var guild := t[id].data;
        Edit(t, id, guild.(name := Coalesce(newName, guild.name),
                           description := Coalesce(newDescription, guild.description),
                           iconUrl := Coalesce(newIconUrl, guild.iconUrl),
                           bannerUrl := Coalesce(newBannerUrl, guild.bannerUrl)))
    case TransferGuildOwnership(id, owner) => if id in t then Edit(t, id, t[id].data.(owner := owner)) else t
    case DeleteGuild(id) => SoftDelete(t, id, now)
  }

  function GuildMembersAfter(t: Table<(Id, Id), GuildMember>, s: GuildMemberStatement, now: Time)
    : Table<(Id, Id), GuildMember>
  {
    match s
    case AddGuildMember(guild, user, nickname, inviteCode, invitedBy) =>
      var key := (guild, user);
      Upsert(t, key, GuildMember(nickname, inviteCode, invitedBy, if key in t then t[key].data.joinedAt else now), now)
    case RemoveGuildMember(guild, user) => SoftDelete(t, (guild, user), now)
  }

  function BansAfter(t: Table<(Id, Id), Ban>, s: BanStatement, now: Time): Table<(Id, Id), Ban> {
    match s
    case CreateBan(guild, user, reason) =>
      var key := (guild, user);
      Upsert(t, key, Ban(reason, if key in t then t[key].data.createdAt else now), now)
    case DeleteBan(guild, user) => SoftDelete(t, (guild, user), now)
  }

  function RolesAfter(t: Table<Id, Role>, s: RoleStatement, now: Time): Table<Id, Role> {
    match s
    case CreateRole(id, guild, name, color, position) => Upsert(t, id, Role(guild, name, color, position, now), now)
    case UpdateRole(id, newName, newColor, newPosition) =>
      if id !in t then t
      else
        var role := t[id].data;
        Edit(t, id, role.(name := Coalesce(newName, role.name),
                          color := Coalesce(newColor, role.color),
                          position := Coalesce(newPosition, role.position)))
    case DeleteRole(id) => SoftDelete(t, id, now)
  }

  function RoleMembersAfter(t: Table<(Id, Id), Link>, s: RoleMemberStatement, now: Time): Table<(Id, Id), Link> {
    match s
    case AssignRole(role, user) => Upsert(t, (role, user), Link, now)
    case RemoveRole(role, user) => SoftDelete(t, (role, user), now)
  }

  function ChannelsAfter(t: Table<Id, Channel>, s: ChannelStatement, now: Time): Table<Id, Channel> {
    match s
    case CreateChannel(id, guild, name, kind, topic, position, parent) =>
      Upsert(t, id, Channel(guild, name, kind, topic, position, parent, now), now)
    case CreateDMChannel(id, name, kind) => Upsert(t, id, Channel(None, name, kind, "", 0, None, now), now)
    case UpdateChannel(id, newName, newTopic, newPosition, newParent) =>
      if id !in t then t
      else
        var channel := t[id].data;
        Edit(t, id, channel.(name := Coalesce(newName, channel.name),
                             topic := Coalesce(newTopic, channel.topic),
                             position := Coalesce(newPosition, channel.position),
                             parent := if newParent.Some? then newParent else channel.parent))
    case DeleteChannel(id) => SoftDelete(t, id, now)
  }

  function DmMembersAfter(t: Table<(Id, Id), Link>, s: DmMemberStatement, now: Time): Table<(Id, Id), Link> {
    match s
    case AddDMChannelMember(channel, user) => Upsert(t, (channel, user), Link, now)
    case RemoveDMChannelMember(channel, user) => SoftDelete(t, (channel, user), now)
  }

  function Apply(db: Db, s: Statement, now: Time): Db {
    match s
    case OnUsers(u) => db.(users := UsersAfter(db.users, u, now))
    case OnFriendships(f) => db.(friendships := FriendshipsAfter(db.friendships, f, now))
    case OnGuilds(g) => db.(guilds := GuildsAfter(db.guilds, g, now))
    case OnGuildMembers(m) => db.(guildMembers := GuildMembersAfter(db.guildMembers, m, now))
    case OnBans(b) => db.(bans := BansAfter(db.bans, b, now))
    case OnRoles(r) => db.(roles := RolesAfter(db.roles, r, now))
    case OnRoleMembers(rm) => db.(roleMembers := RoleMembersAfter(db.roleMembers, rm, now))
    case OnChannels(c) => db.(channels := ChannelsAfter(db.channels, c, now))
    case OnDmMembers(dm) => db.(dmMembers := DmMembersAfter(db.dmMembers, dm, now))
  }

  // Each statement runs at a NOW() later than every earlier one; a refused statement changes no row.
  function Execute(db: Db, s: Statement): Db {
    var now := db.clock + 1;
    (if Check(db, s) == Applied then Apply(db, s, now) else db).(clock := now)
  }

  function ExecuteAll(db: Db, statements: seq<Statement>): Db {
    if statements == [] then db
    else Execute(ExecuteAll(db, statements[..|statements| - 1]), statements[|statements| - 1])
  }
}
