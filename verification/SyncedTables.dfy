/** The six synced tables as lenses on the world: which columns only a stamped write can change. */
module SyncedTables {
  import opened Schema
  import opened Statements
  import opened SyncQueries
  import opened DeltaSync
  import opened Replica

  // ---- users ----

  function UserTable(db: Db): Table<Id, User> { db.users }
  function UserMirror(m: Mirrors): Table<Id, User> { m.users }
  function WholeUser(user: User): User { user }
  function UserLens(): Lens<Id, User, User> {
    Lens(Users, UserTable, UserScope, UserMirror, WholeUser)
  }

  lemma UserTableEvolves(db: Db, s: Statement)
    ensures Evolves(db.users, Execute(db, s).users, db.clock + 1, WholeUser)
  {
    if Check(db, s) != Applied {
      assert Execute(db, s).users == db.users;
    } else {
      assert Execute(db, s).users == Apply(db, s, db.clock + 1).users;
    }
  }

  lemma UserLensIsLawful()
    ensures Lawful(UserLens())
  {
    var lens := UserLens();
    forall db, s
      ensures Evolves(lens.table(db), lens.table(Execute(db, s)), db.clock + 1, lens.fixed)
    {
      UserTableEvolves(db, s);
    }
  }

  // ---- guildMembers ----

  function GuildMemberTable(db: Db): Table<(Id, Id), GuildMember> { db.guildMembers }
  function GuildMemberMirror(m: Mirrors): Table<(Id, Id), GuildMember> { m.guildMembers }
  function WholeGuildMember(member: GuildMember): GuildMember { member }
  function GuildMemberLens(): Lens<(Id, Id), GuildMember, GuildMember> {
    Lens(GuildMembers, GuildMemberTable, GuildMemberScope, GuildMemberMirror, WholeGuildMember)
  }

  lemma GuildMemberTableEvolves(db: Db, s: Statement)
    ensures Evolves(db.guildMembers, Execute(db, s).guildMembers, db.clock + 1, WholeGuildMember)
  {
    if Check(db, s) != Applied {
      assert Execute(db, s).guildMembers == db.guildMembers;
    } else {
      assert Execute(db, s).guildMembers == Apply(db, s, db.clock + 1).guildMembers;
    }
  }

  lemma GuildMemberLensIsLawful()
    ensures Lawful(GuildMemberLens())
  {
    var lens := GuildMemberLens();
    forall db, s
      ensures Evolves(lens.table(db), lens.table(Execute(db, s)), db.clock + 1, lens.fixed)
    {
      GuildMemberTableEvolves(db, s);
    }
  }

  // ---- dmMembers ----

  function DmMemberTable(db: Db): Table<(Id, Id), Link> { db.dmMembers }
  function DmMemberMirror(m: Mirrors): Table<(Id, Id), Link> { m.dmMembers }
  function WholeLink(link: Link): Link { link }
  function DmMemberLens(): Lens<(Id, Id), Link, Link> {
    Lens(DmMembers, DmMemberTable, DmMemberScope, DmMemberMirror, WholeLink)
  }

  lemma DmMemberTableEvolves(db: Db, s: Statement)
    ensures Evolves(db.dmMembers, Execute(db, s).dmMembers, db.clock + 1, WholeLink)
  {
    if Check(db, s) != Applied {
      assert Execute(db, s).dmMembers == db.dmMembers;
    } else {
      assert Execute(db, s).dmMembers == Apply(db, s, db.clock + 1).dmMembers;
    }
  }

  lemma DmMemberLensIsLawful()
    ensures Lawful(DmMemberLens())
  {
    var lens := DmMemberLens();
    forall db, s
      ensures Evolves(lens.table(db), lens.table(Execute(db, s)), db.clock + 1, lens.fixed)
    {
      DmMemberTableEvolves(db, s);
    }
  }

  // ---- guilds ----

  function GuildTable(db: Db): Table<Id, Guild> { db.guilds }
  function GuildMirror(m: Mirrors): Table<Id, Guild> { m.guilds }
  function GuildCreation(guild: Guild): Time { guild.createdAt }
  function GuildLens(): Lens<Id, Guild, Time> {
    Lens(Guilds, GuildTable, GuildScope, GuildMirror, GuildCreation)
  }

  lemma GuildTableEvolves(db: Db, s: Statement)
    ensures Evolves(db.guilds, Execute(db, s).guilds, db.clock + 1, GuildCreation)
  {
    if Check(db, s) != Applied {
      assert Execute(db, s).guilds == db.guilds;
    } else {
      assert Execute(db, s).guilds == Apply(db, s, db.clock + 1).guilds;
    }
  }

  lemma GuildLensIsLawful()
    ensures Lawful(GuildLens())
  {
    var lens := GuildLens();
    forall db, s
      ensures Evolves(lens.table(db), lens.table(Execute(db, s)), db.clock + 1, lens.fixed)
    {
      GuildTableEvolves(db, s);
    }
  }

  // ---- roles ----

  function RoleTable(db: Db): Table<Id, Role> { db.roles }
  function RoleMirror(m: Mirrors): Table<Id, Role> { m.roles }
  function RoleHome(role: Role): (Id, Time) { (role.guild, role.createdAt) }
  function RoleLens(): Lens<Id, Role, (Id, Time)> {
    Lens(Roles, RoleTable, RoleScope, RoleMirror, RoleHome)
  }

  lemma RoleTableEvolves(db: Db, s: Statement)
    ensures Evolves(db.roles, Execute(db, s).roles, db.clock + 1, RoleHome)
  {
    if Check(db, s) != Applied {
      assert Execute(db, s).roles == db.roles;
    } else {
      assert Execute(db, s).roles == Apply(db, s, db.clock + 1).roles;
    }
  }

  lemma RoleLensIsLawful()
    ensures Lawful(RoleLens())
  {
    var lens := RoleLens();
    forall db, s
      ensures Evolves(lens.table(db), lens.table(Execute(db, s)), db.clock + 1, lens.fixed)
    {
      RoleTableEvolves(db, s);
    }
  }

  // ---- channels ----

  function ChannelTable(db: Db): Table<Id, Channel> { db.channels }
  function ChannelMirror(m: Mirrors): Table<Id, Channel> { m.channels }
  function ChannelHome(channel: Channel): (Option<Id>, int, Time) { (channel.guild, channel.kind, channel.createdAt) }
  function ChannelLens(): Lens<Id, Channel, (Option<Id>, int, Time)> {
    Lens(Channels, ChannelTable, ChannelScope, ChannelMirror, ChannelHome)
  }

  lemma ChannelTableEvolves(db: Db, s: Statement)
    ensures Evolves(db.channels, Execute(db, s).channels, db.clock + 1, ChannelHome)
  {
    if Check(db, s) != Applied {
      assert Execute(db, s).channels == db.channels;
    } else {
      assert Execute(db, s).channels == Apply(db, s, db.clock + 1).channels;
    }
  }

  lemma ChannelLensIsLawful()
    ensures Lawful(ChannelLens())
  {
    var lens := ChannelLens();
    forall db, s
      ensures Evolves(lens.table(db), lens.table(Execute(db, s)), db.clock + 1, lens.fixed)
    {
      ChannelTableEvolves(db, s);
    }
  }
}
