/** The scopes of the Sync queries: which keys a viewer's delta may contain. */
module SyncQueries {
  import opened Schema

  predicate InGuild(db: Db, viewer: Id, guild: Id) {
    Live(db.guildMembers, (guild, viewer))
  }

  predicate InDm(db: Db, viewer: Id, channel: Id) {
    Live(db.dmMembers, (channel, viewer))
  }

  function GuildMemberScope(db: Db, viewer: Id): set<(Id, Id)> {
    set key | key in db.guildMembers && InGuild(db, viewer, key.0)
  }

  function DmMemberScope(db: Db, viewer: Id): set<(Id, Id)> {
    set key | key in db.dmMembers && InDm(db, viewer, key.0)
  }

  function GuildScope(db: Db, viewer: Id): set<Id> {
    set id | id in db.guilds && InGuild(db, viewer, id)
  }

  function RoleScope(db: Db, viewer: Id): set<Id> {
    set id | id in db.roles && InGuild(db, viewer, db.roles[id].data.guild)
  }

  predicate SeesChannel(db: Db, viewer: Id, id: Id)
    requires id in db.channels
  {
    var guild := db.channels[id].data.guild;
    (guild.Some? && InGuild(db, viewer, guild.value)) || InDm(db, viewer, id)
  }

  function ChannelScope(db: Db, viewer: Id): set<Id> {
    set id | id in db.channels && SeesChannel(db, viewer, id)
  }

  // guild_members is read here without a deleted filter on the other member.
  predicate SharesGuild(db: Db, viewer: Id, user: Id) {
    exists key | key in db.guildMembers :: key.1 == user && InGuild(db, viewer, key.0)
  }

  lemma SharesGuildIff(db: Db, viewer: Id, user: Id)
    ensures SharesGuild(db, viewer, user) <==>
              exists guild: Id :: (guild, user) in db.guildMembers && InGuild(db, viewer, guild)
  {
    if key :| key in db.guildMembers && key.1 == user && InGuild(db, viewer, key.0) {
      assert (key.0, user) in db.guildMembers;
    }
  }

  predicate SeesUser(db: Db, viewer: Id, user: Id) {
    || user == viewer
    || Live(db.friendships, (viewer, user))
    || Live(db.friendships, (user, viewer))
    || SharesGuild(db, viewer, user)
  }

  function UserScope(db: Db, viewer: Id): set<Id> {
    set id | id in db.users && SeesUser(db, viewer, id)
  }
}
