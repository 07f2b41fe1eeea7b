/** The Postgres tables that the queries read and write: finite maps from primary key to row. */
module Schema {
  type Id = nat
  type Time = nat

  datatype Option<+T> = None | Some(value: T)

  // COALESCE(supplied, current)
  function Coalesce<T>(supplied: Option<T>, current: T): T {
    match supplied
    case Some(value) => value
    case None => current
  }

  function AtLeastOne(n: int): nat {
    if n < 1 then 1 else n
  }

  // Every soft-deleted table carries deleted and updated_at beside its own columns.
  datatype Row<+D> = Row(data: D, deleted: bool, updatedAt: Time)

  type Table<!K(==), +D> = map<K, Row<D>>

  datatype User = User(username: string, displayName: string, email: string, passwordHash: string,
                       avatarUrl: string, bio: string, status: string, backgroundColor: string,
                       verified: bool, createdAt: Time)
  datatype Friendship = Friendship(status: string, createdAt: Time)
  datatype Guild = Guild(name: string, description: string, iconUrl: string, bannerUrl: string,
                         owner: Id, createdAt: Time)
  datatype GuildMember = GuildMember(nickname: string, inviteCode: Option<string>, invitedBy: Option<Id>,
                                     joinedAt: Time)
  datatype Ban = Ban(reason: string, createdAt: Time)
  datatype Role = Role(guild: Id, name: string, color: string, position: int, createdAt: Time)
  datatype Channel = Channel(guild: Option<Id>, name: string, kind: int, topic: string, position: int,
                             parent: Option<Id>, createdAt: Time)
  // role_members and dm_channel_members hold nothing beside their key.
  datatype Link = Link

  datatype Db = Db(
    clock: Time,
    users: Table<Id, User>,
    friendships: Table<(Id, Id), Friendship>,    // (user_id, friend_id)
    guilds: Table<Id, Guild>,
    guildMembers: Table<(Id, Id), GuildMember>,  // (guild_id, user_id)
    bans: Table<(Id, Id), Ban>,                  // (guild_id, user_id)
    roles: Table<Id, Role>,
    roleMembers: Table<(Id, Id), Link>,          // (role_id, user_id)
    channels: Table<Id, Channel>,
    dmMembers: Table<(Id, Id), Link>)            // (channel_id, user_id)

  const EMPTY_DB := Db(0, map[], map[], map[], map[], map[], map[], map[], map[], map[])

  predicate Live<K(==), D>(t: Table<K, D>, key: K) {
    key in t && !t[key].deleted
  }

  function LiveKeys<K, D>(t: Table<K, D>): set<K> {
    set key | key in t && !t[key].deleted
  }
}
