/** When a client that merges the Sync deltas agrees with the server, and what it holds in any case. */
module Convergence {
  import opened Schema
  import opened Statements
  import opened SyncQueries
  import opened DeltaSync
  import opened Replica
  import opened SyncedTables

  function Now(h: History): World
    requires |h.worlds| == |h.events| + 1
  {
    h.worlds[|h.events|]
  }

  // From event m on, every sync that handed its server time back had fetched the relation.
  predicate CompleteFrom(h: History, m: nat, relation: Relation)
    requires |h.worlds| == |h.events| + 1
  {
    forall i | m <= i < |h.events| :: h.events[i] == End ==> relation in h.worlds[i].pulled
  }

  predicate Complete(h: History, relation: Relation)
    requires |h.worlds| == |h.events| + 1
  {
    CompleteFrom(h, 0, relation)
  }

  predicate JustPulled(h: History, relation: Relation) {
    h.events != [] && h.events[|h.events| - 1] == Pull(relation)
  }

  // ---- any synced table ----

  lemma CompleteFrames<K(!new), D(!new), F(!new)>(lens: Lens<K, D, F>, h: History, m: nat)
    requires Lawful(lens) && Happened(h) && CompleteFrom(h, m, lens.relation)
    ensures CompleteSyncs(Frames(lens, h), m)
  {
    var fs := Frames(lens, h);
    forall i | m < i < |fs|
      ensures fs[i].watermark == fs[i - 1].watermark || fs[i - 1].pulled
    {
      assert h.worlds[i] == Advance(h.worlds[i - 1], h.events[i - 1]);
    }
  }

  predicate HoldsCurrent<K(==), D, F>(lens: Lens<K, D, F>, w: World, key: K) {
    var server, client := lens.table(w.db), lens.mirror(w.mirrors);
    key in server && key in client && client[key].updatedAt == server[key].updatedAt
  }

  // The client has the version of the row that its next sync will no longer ask for.
  predicate SettledAt<K(==), D, F>(lens: Lens<K, D, F>, w: World, key: K) {
    var server := lens.table(w.db);
    key in server &&
    (|| server[key].updatedAt <= w.watermark
     || (lens.relation in w.pulled && server[key].updatedAt <= w.pending)) ==>
      HoldsCurrent(lens, w, key)
  }

  // At every fetch of the relation from event m on, the viewer's query lets the key through if it has a row at all.
  predicate InScopeFrom<K(==), D, F>(lens: Lens<K, D, F>, h: History, m: nat, key: K)
    requires |h.worlds| == |h.events| + 1
  {
    forall i | m <= i < |h.events| ::
      h.events[i] == Pull(lens.relation) && key in lens.table(h.worlds[i].db) ==>
        key in lens.scope(h.worlds[i].db, h.worlds[i].viewer)
  }

  predicate AlwaysInScope<K(==), D, F>(lens: Lens<K, D, F>, h: History, key: K)
    requires |h.worlds| == |h.events| + 1
  {
    InScopeFrom(lens, h, 0, key)
  }

  ghost predicate Agrees<K, D(!new), F(!new)>(lens: Lens<K, D, F>, w: World, key: K) {
    var server, client := lens.table(w.db), lens.mirror(w.mirrors);
    && (key in client <==> key in server)
    && (key in server ==> Unstamped(client[key], server[key], lens.fixed))
  }

  // Whatever happened before event m, in scope or out of it: a client settled there agrees after its next fetches.
  lemma FetchConvergesFrom<K(!new), D(!new), F(!new)>(lens: Lens<K, D, F>, h: History, m: nat, key: K)
    requires Lawful(lens) && Happened(h) && m < |h.events| && CompleteFrom(h, m, lens.relation)
    requires SettledAt(lens, h.worlds[m], key)
    requires JustPulled(h, lens.relation) && InScopeFrom(lens, h, m, key)
    ensures Agrees(lens, Now(h), key)
  {
    FramesRun(lens, h);
    CompleteFrames(lens, h, m);
    PullConvergesFrom(Frames(lens, h), lens.fixed, m, key);
  }

  lemma StartIsSettled<K(!new), D(!new), F(!new)>(lens: Lens<K, D, F>, h: History, key: K)
    requires Lawful(lens) && Happened(h)
    ensures SettledAt(lens, h.worlds[0], key)
  {
  }

  lemma AgreementIsSettled<K(!new), D(!new), F(!new)>(lens: Lens<K, D, F>, w: World, key: K)
    requires Agrees(lens, w, key)
    ensures SettledAt(lens, w, key)
  {
  }

  lemma FetchConverges<K(!new), D(!new), F(!new)>(lens: Lens<K, D, F>, h: History, key: K)
    requires Lawful(lens) && Happened(h) && Complete(h, lens.relation)
    requires JustPulled(h, lens.relation) && AlwaysInScope(lens, h, key)
    ensures Agrees(lens, Now(h), key)
  {
    StartIsSettled(lens, h, key);
    FetchConvergesFrom(lens, h, 0, key);
  }

  // Event i fetched the relation while the key was in scope and that version lay past the watermark.
  predicate Delivers<K(==), D, F>(lens: Lens<K, D, F>, h: History, i: nat, key: K, version: Time)
    requires |h.worlds| == |h.events| + 1
  {
    && i < |h.events|
    && h.events[i] == Pull(lens.relation)
    && key in lens.scope(h.worlds[i].db, h.worlds[i].viewer)
    && h.worlds[i].watermark < version <= h.worlds[i].db.clock
  }

  lemma HoldsCurrentIffDelivered<K(!new), D(!new), F(!new)>(lens: Lens<K, D, F>, h: History, key: K)
    requires Lawful(lens) && Happened(h) && key in lens.table(Now(h).db)
    ensures HoldsCurrent(lens, Now(h), key) <==>
              exists i :: Delivers(lens, h, i, key, lens.table(Now(h).db)[key].updatedAt)
  {
    var fs, version := Frames(lens, h), lens.table(Now(h).db)[key].updatedAt;
    FramesRun(lens, h);
    CurrentIffOffered(fs, lens.fixed, key);
    assert forall i: nat :: Offered(fs, i, key, version) == Delivers(lens, h, i, key, version);
  }

  // The client's row cannot move before the server stamps the row again, however often it syncs.
  lemma FrozenUntilStamped<K(!new), D(!new), F(!new)>(lens: Lens<K, D, F>, h: History, m: nat, key: K)
    requires Lawful(lens) && Happened(h) && m < |h.worlds|
    requires key in lens.table(h.worlds[m].db)
    requires lens.table(h.worlds[m].db)[key].updatedAt <= h.worlds[m].watermark
    ensures key in lens.table(Now(h).db)
    ensures lens.table(Now(h).db)[key].updatedAt == lens.table(h.worlds[m].db)[key].updatedAt ==>
              Held(lens.mirror(Now(h).mirrors), key) == Held(lens.mirror(h.worlds[m].mirrors), key)
  {
    FramesRun(lens, h);
    FrozenBehindWatermark(Frames(lens, h), lens.fixed, m, key);
  }

  // ---- what the client holds of any row, in any history ----

  // Event i fetched the row of the key.
  predicate Brings<K(==), D, F>(lens: Lens<K, D, F>, h: History, i: nat, key: K)
    requires |h.worlds| == |h.events| + 1
  {
    && i < |h.events|
    && h.events[i] == Pull(lens.relation)
    && key in Delta(lens.table(h.worlds[i].db), lens.scope(h.worlds[i].db, h.worlds[i].viewer), h.worlds[i].watermark)
  }

  ghost predicate LastBrings<K, D, F>(lens: Lens<K, D, F>, h: History, i: nat, key: K)
    requires |h.worlds| == |h.events| + 1
  {
    Brings(lens, h, i, key) && forall j: nat | Brings(lens, h, j, key) :: j <= i
  }

  // All columns of the client's row are those of the last fetch that brought it; without one there is no row.
  lemma HeldIsLastBrought<K(!new), D(!new), F(!new)>(lens: Lens<K, D, F>, h: History, key: K)
    requires Lawful(lens) && Happened(h)
    ensures Held(lens.mirror(Now(h).mirrors), key) == None <==> forall i: nat :: !Brings(lens, h, i, key)
    ensures forall i: nat | LastBrings(lens, h, i, key) ::
              Held(lens.mirror(Now(h).mirrors), key) == Some(lens.table(h.worlds[i].db)[key])
  {
    var fs := Frames(lens, h);
    FramesRun(lens, h);
    HeldIsLastSent(fs, lens.fixed, key);
    assert forall i: nat :: Sent(fs, i, key) == Brings(lens, h, i, key);
    forall i: nat | LastBrings(lens, h, i, key)
      ensures Held(lens.mirror(Now(h).mirrors), key) == Some(lens.table(h.worlds[i].db)[key])
    {
      assert LastSent(fs, i, key);
    }
  }

  ghost predicate IsRight<K, D, F>(lens: Lens<K, D, F>, w: World, key: K) {
    Held(lens.mirror(w.mirrors), key) == Held(lens.table(w.db), key)
  }

  // A client's row is right in every column exactly when the server's row is the one last brought.
  lemma RightIffUnchanged<K(!new), D(!new), F(!new)>(lens: Lens<K, D, F>, h: History, i: nat, key: K)
    requires Lawful(lens) && Happened(h) && LastBrings(lens, h, i, key)
    ensures IsRight(lens, Now(h), key) <==>
              Held(lens.table(Now(h).db), key) == Held(lens.table(h.worlds[i].db), key)
  {
    HeldIsLastBrought(lens, h, key);
  }

  // ---- memberships: exactly the server's rows, tombstones included ----

  function RowsOf<D>(t: Table<(Id, Id), D>, group: Id): Table<(Id, Id), D> {
    map key | key in t && key.0 == group :: t[key]
  }

  // At every fetch from event m on, a guild that has members has the viewer among its live ones.
  predicate MemberAtFetches(h: History, m: nat, guild: Id)
    requires |h.worlds| == |h.events| + 1
  {
    forall i | m <= i < |h.events| && h.events[i] == Pull(GuildMembers) ::
      RowsOf(h.worlds[i].db.guildMembers, guild) != map[] ==> InGuild(h.worlds[i].db, h.worlds[i].viewer, guild)
  }

  lemma GuildMembersConvergeFrom(h: History, m: nat, guild: Id)
    requires Happened(h) && m < |h.events| && CompleteFrom(h, m, GuildMembers) && JustPulled(h, GuildMembers)
    requires forall key: (Id, Id) | key.0 == guild :: SettledAt(GuildMemberLens(), h.worlds[m], key)
    requires MemberAtFetches(h, m, guild)
    ensures RowsOf(Now(h).mirrors.guildMembers, guild) == RowsOf(Now(h).db.guildMembers, guild)
  {
    GuildMemberLensIsLawful();
    forall key: (Id, Id) | key.0 == guild
      ensures Held(Now(h).mirrors.guildMembers, key) == Held(Now(h).db.guildMembers, key)
    {
      forall i | m <= i < |h.events| && h.events[i] == Pull(GuildMembers) && key in h.worlds[i].db.guildMembers
        ensures key in GuildMemberScope(h.worlds[i].db, h.worlds[i].viewer)
      {
        assert key in RowsOf(h.worlds[i].db.guildMembers, guild);
      }
      FetchConvergesFrom(GuildMemberLens(), h, m, key);
    }
    SameRows(Now(h).mirrors.guildMembers, Now(h).db.guildMembers, guild);
  }

  // A mirror of the guild that agrees with the server at any moment is such a start.
  lemma GuildMembersStayConverged(h: History, m: nat, guild: Id)
    requires Happened(h) && m < |h.events| && CompleteFrom(h, m, GuildMembers) && JustPulled(h, GuildMembers)
    requires RowsOf(h.worlds[m].mirrors.guildMembers, guild) == RowsOf(h.worlds[m].db.guildMembers, guild)
    requires MemberAtFetches(h, m, guild)
    ensures RowsOf(Now(h).mirrors.guildMembers, guild) == RowsOf(Now(h).db.guildMembers, guild)
  {
    var w := h.worlds[m];
    forall key: (Id, Id) | key.0 == guild
      ensures SettledAt(GuildMemberLens(), w, key)
    {
      assert key in w.db.guildMembers ==> key in RowsOf(w.mirrors.guildMembers, guild);
    }
    GuildMembersConvergeFrom(h, m, guild);
  }

  lemma GuildMembersConverge(h: History, guild: Id)
    requires Happened(h) && Complete(h, GuildMembers) && JustPulled(h, GuildMembers)
    requires MemberAtFetches(h, 0, guild)
    ensures RowsOf(Now(h).mirrors.guildMembers, guild) == RowsOf(Now(h).db.guildMembers, guild)
  {
    GuildMembersConvergeFrom(h, 0, guild);
  }

  lemma SameRows<D>(t: Table<(Id, Id), D>, t': Table<(Id, Id), D>, group: Id)
    requires forall key: (Id, Id) | key.0 == group :: Held(t, key) == Held(t', key)
    ensures RowsOf(t, group) == RowsOf(t', group)
  {
    var r, r' := RowsOf(t, group), RowsOf(t', group);
    forall key | key in r || key in r'
      ensures key in r && key in r' && r[key] == r'[key]
    {
      assert Held(t, key) == Held(t', key);
    }
  }

  predicate InDmAtFetches(h: History, m: nat, channel: Id)
    requires |h.worlds| == |h.events| + 1
  {
    forall i | m <= i < |h.events| && h.events[i] == Pull(DmMembers) ::
      RowsOf(h.worlds[i].db.dmMembers, channel) != map[] ==> InDm(h.worlds[i].db, h.worlds[i].viewer, channel)
  }

  lemma DmMembersConvergeFrom(h: History, m: nat, channel: Id)
    requires Happened(h) && m < |h.events| && CompleteFrom(h, m, DmMembers) && JustPulled(h, DmMembers)
    requires forall key: (Id, Id) | key.0 == channel :: SettledAt(DmMemberLens(), h.worlds[m], key)
    requires InDmAtFetches(h, m, channel)
    ensures RowsOf(Now(h).mirrors.dmMembers, channel) == RowsOf(Now(h).db.dmMembers, channel)
  {
    DmMemberLensIsLawful();
    forall key: (Id, Id) | key.0 == channel
      ensures Held(Now(h).mirrors.dmMembers, key) == Held(Now(h).db.dmMembers, key)
    {
      forall i | m <= i < |h.events| && h.events[i] == Pull(DmMembers) && key in h.worlds[i].db.dmMembers
        ensures key in DmMemberScope(h.worlds[i].db, h.worlds[i].viewer)
      {
        assert key in RowsOf(h.worlds[i].db.dmMembers, channel);
      }
      FetchConvergesFrom(DmMemberLens(), h, m, key);
    }
    SameRows(Now(h).mirrors.dmMembers, Now(h).db.dmMembers, channel);
  }

  lemma DmMembersConverge(h: History, channel: Id)
    requires Happened(h) && Complete(h, DmMembers) && JustPulled(h, DmMembers)
    requires InDmAtFetches(h, 0, channel)
    ensures RowsOf(Now(h).mirrors.dmMembers, channel) == RowsOf(Now(h).db.dmMembers, channel)
  {
    DmMembersConvergeFrom(h, 0, channel);
  }

  // ---- users: exactly the server's row ----

  lemma UsersConvergeFrom(h: History, m: nat, user: Id)
    requires Happened(h) && m < |h.events| && CompleteFrom(h, m, Users) && JustPulled(h, Users)
    requires SettledAt(UserLens(), h.worlds[m], user)
    requires forall i | m <= i < |h.events| && h.events[i] == Pull(Users) ::
               user in h.worlds[i].db.users ==> SeesUser(h.worlds[i].db, h.worlds[i].viewer, user)
    ensures Held(Now(h).mirrors.users, user) == Held(Now(h).db.users, user)
  {
    UserLensIsLawful();
    FetchConvergesFrom(UserLens(), h, m, user);
  }

  lemma UsersConverge(h: History, user: Id)
    requires Happened(h) && Complete(h, Users) && JustPulled(h, Users)
    requires forall i | 0 <= i < |h.events| && h.events[i] == Pull(Users) ::
               user in h.worlds[i].db.users ==> SeesUser(h.worlds[i].db, h.worlds[i].viewer, user)
    ensures Held(Now(h).mirrors.users, user) == Held(Now(h).db.users, user)
  {
    UsersConvergeFrom(h, 0, user);
  }

  lemma {:induction false} MembershipRowsStay(h: History, i: nat, j: nat)
    requires Happened(h) && i <= j < |h.worlds|
    ensures h.worlds[i].viewer == h.worlds[j].viewer
    ensures h.worlds[i].db.guildMembers.Keys <= h.worlds[j].db.guildMembers.Keys
    ensures h.worlds[i].db.users.Keys <= h.worlds[j].db.users.Keys
  {
    if i < j {
      MembershipRowsStay(h, i, j - 1);
      assert h.worlds[j] == Advance(h.worlds[j - 1], h.events[j - 1]);
      if h.events[j - 1].Exec? {
        GuildMemberTableEvolves(h.worlds[j - 1].db, h.events[j - 1].s);
        UserTableEvolves(h.worlds[j - 1].db, h.events[j - 1].s);
      }
    }
  }

  // Once a user has a member row in a guild, the user stays in the scope of every live member, removed or not.
  lemma FormerMembersStayInScope(h: History, i: nat, j: nat, guild: Id, user: Id)
    requires Happened(h) && i <= j < |h.worlds|
    requires (guild, user) in h.worlds[i].db.guildMembers && user in h.worlds[i].db.users
    requires InGuild(h.worlds[j].db, h.worlds[j].viewer, guild)
    ensures user in UserScope(h.worlds[j].db, h.worlds[j].viewer)
  {
    MembershipRowsStay(h, i, j);
    assert (guild, user) in h.worlds[j].db.guildMembers;
  }

  // ---- channels, roles and guilds: the live ids, although their edits are not stamped ----

  function ChannelFlags(t: Table<Id, Channel>, guild: Id): map<Id, bool> {
    map id | id in t && t[id].data.guild == Some(guild) :: t[id].deleted
  }

  function RoleFlags(t: Table<Id, Role>, guild: Id): map<Id, bool> {
    map id | id in t && t[id].data.guild == guild :: t[id].deleted
  }

  // No statement moves a channel or a role to another guild.
  predicate SameHomes(db: Db, db': Db) {
    && (forall id | id in db.channels ::
          id in db'.channels && db'.channels[id].data.guild == db.channels[id].data.guild)
    && (forall id | id in db.roles :: id in db'.roles && db'.roles[id].data.guild == db.roles[id].data.guild)
  }

  lemma StatementsKeepHomes(db: Db, s: Statement)
    ensures SameHomes(db, Execute(db, s))
  {
    if Check(db, s) != Applied {
      assert Execute(db, s) == db.(clock := db.clock + 1);
    } else {
      assert Execute(db, s) == Apply(db, s, db.clock + 1).(clock := db.clock + 1);
    }
  }

  lemma {:induction false} HomesAreFixed(h: History, i: nat, j: nat)
    requires Happened(h) && i <= j < |h.worlds|
    ensures SameHomes(h.worlds[i].db, h.worlds[j].db)
  {
    if i < j {
      HomesAreFixed(h, i, j - 1);
      assert h.worlds[j] == Advance(h.worlds[j - 1], h.events[j - 1]);
      if h.events[j - 1].Exec? {
        StatementsKeepHomes(h.worlds[j - 1].db, h.events[j - 1].s);
      }
    }
  }

  // What the client holds about a channel or a role names the guild the server has it in.
  predicate HomesAgree(w: World) {
    && (forall id | id in w.mirrors.channels ::
          id in w.db.channels && w.mirrors.channels[id].data.guild == w.db.channels[id].data.guild)
    && (forall id | id in w.mirrors.roles ::
          id in w.db.roles && w.mirrors.roles[id].data.guild == w.db.roles[id].data.guild)
  }

  // After a fetch each row the client holds is the server's or was held before.
  predicate Fetched<K(==), D(==)>(server: Table<K, D>, before: Table<K, D>, after: Table<K, D>) {
    forall key | key in after ::
      || (key in server && after[key] == server[key])
      || (key in before && after[key] == before[key])
  }

  lemma FetchBringsServerRows(w: World, relation: Relation)
    ensures Fetched(w.db.channels, w.mirrors.channels, Fetch(w, relation).channels)
    ensures Fetched(w.db.roles, w.mirrors.roles, Fetch(w, relation).roles)
  {
    match relation
    case Channels =>
    case Roles =>
    case _ =>
  }

  lemma EventsKeepHomes(w: World, e: Event)
    requires HomesAgree(w)
    ensures HomesAgree(Advance(w, e))
  {
    match e
    case Exec(s) => StatementsKeepHomes(w.db, s);
    case Pull(relation) => FetchBringsServerRows(w, relation);
    case _ =>
  }

  lemma {:induction false} HomesAlwaysAgree(h: History, j: nat)
    requires Happened(h) && j < |h.worlds|
    ensures HomesAgree(h.worlds[j])
  {
    if j > 0 {
      HomesAlwaysAgree(h, j - 1);
      EventsKeepHomes(h.worlds[j - 1], h.events[j - 1]);
    }
  }

  predicate ChannelsInScope(h: History, m: nat, guild: Id)
    requires |h.worlds| == |h.events| + 1
  {
    forall i | m <= i < |h.events| && h.events[i] == Pull(Channels) ::
      ChannelFlags(h.worlds[i].db.channels, guild) != map[] ==> InGuild(h.worlds[i].db, h.worlds[i].viewer, guild)
  }

  lemma ChannelInScopeFrom(h: History, m: nat, guild: Id, id: Id)
    requires Happened(h) && ChannelsInScope(h, m, guild)
    requires id in Now(h).db.channels && Now(h).db.channels[id].data.guild == Some(guild)
    ensures InScopeFrom(ChannelLens(), h, m, id)
  {
    forall i | m <= i < |h.events| && h.events[i] == Pull(Channels) && id in h.worlds[i].db.channels
      ensures id in ChannelScope(h.worlds[i].db, h.worlds[i].viewer)
    {
      HomesAreFixed(h, i, |h.events|);
      assert id in ChannelFlags(h.worlds[i].db.channels, guild);
    }
  }

  lemma GuildChannelsConvergeFrom(h: History, m: nat, guild: Id)
    requires Happened(h) && m < |h.events| && CompleteFrom(h, m, Channels) && JustPulled(h, Channels)
    requires forall id | id in ChannelFlags(h.worlds[m].db.channels, guild) ::
               SettledAt(ChannelLens(), h.worlds[m], id)
    requires ChannelsInScope(h, m, guild)
    ensures ChannelFlags(Now(h).mirrors.channels, guild) == ChannelFlags(Now(h).db.channels, guild)
  {
    var client, server := Now(h).mirrors.channels, Now(h).db.channels;
    HomesAlwaysAgree(h, |h.events|);
    HomesAreFixed(h, m, |h.events|);
    forall id | id in server && server[id].data.guild == Some(guild)
      ensures id in client && client[id].deleted == server[id].deleted
    {
      ChannelInScopeFrom(h, m, guild, id);
      ChannelLensIsLawful();
      FetchConvergesFrom(ChannelLens(), h, m, id);
    }
  }

  lemma GuildChannelsConverge(h: History, guild: Id)
    requires Happened(h) && Complete(h, Channels) && JustPulled(h, Channels)
    requires ChannelsInScope(h, 0, guild)
    ensures ChannelFlags(Now(h).mirrors.channels, guild) == ChannelFlags(Now(h).db.channels, guild)
  {
    GuildChannelsConvergeFrom(h, 0, guild);
  }

  predicate RolesInScope(h: History, m: nat, guild: Id)
    requires |h.worlds| == |h.events| + 1
  {
    forall i | m <= i < |h.events| && h.events[i] == Pull(Roles) ::
      RoleFlags(h.worlds[i].db.roles, guild) != map[] ==> InGuild(h.worlds[i].db, h.worlds[i].viewer, guild)
  }

  lemma RoleInScopeFrom(h: History, m: nat, guild: Id, id: Id)
    requires Happened(h) && RolesInScope(h, m, guild)
    requires id in Now(h).db.roles && Now(h).db.roles[id].data.guild == guild
    ensures InScopeFrom(RoleLens(), h, m, id)
  {
    forall i | m <= i < |h.events| && h.events[i] == Pull(Roles) && id in h.worlds[i].db.roles
      ensures id in RoleScope(h.worlds[i].db, h.worlds[i].viewer)
    {
      HomesAreFixed(h, i, |h.events|);
      assert id in RoleFlags(h.worlds[i].db.roles, guild);
    }
  }

  lemma GuildRolesConvergeFrom(h: History, m: nat, guild: Id)
    requires Happened(h) && m < |h.events| && CompleteFrom(h, m, Roles) && JustPulled(h, Roles)
    requires forall id | id in RoleFlags(h.worlds[m].db.roles, guild) :: SettledAt(RoleLens(), h.worlds[m], id)
    requires RolesInScope(h, m, guild)
    ensures RoleFlags(Now(h).mirrors.roles, guild) == RoleFlags(Now(h).db.roles, guild)
  {
    var client, server := Now(h).mirrors.roles, Now(h).db.roles;
    HomesAlwaysAgree(h, |h.events|);
    HomesAreFixed(h, m, |h.events|);
    forall id | id in server && server[id].data.guild == guild
      ensures id in client && client[id].deleted == server[id].deleted
    {
      RoleInScopeFrom(h, m, guild, id);
      RoleLensIsLawful();
      FetchConvergesFrom(RoleLens(), h, m, id);
    }
  }

  lemma GuildRolesConverge(h: History, guild: Id)
    requires Happened(h) && Complete(h, Roles) && JustPulled(h, Roles)
    requires RolesInScope(h, 0, guild)
    ensures RoleFlags(Now(h).mirrors.roles, guild) == RoleFlags(Now(h).db.roles, guild)
  {
    GuildRolesConvergeFrom(h, 0, guild);
  }

  lemma GuildConvergesFrom(h: History, m: nat, guild: Id)
    requires Happened(h) && m < |h.events| && CompleteFrom(h, m, Guilds) && JustPulled(h, Guilds)
    requires SettledAt(GuildLens(), h.worlds[m], guild)
    requires forall i | m <= i < |h.events| && h.events[i] == Pull(Guilds) ::
               guild in h.worlds[i].db.guilds ==> InGuild(h.worlds[i].db, h.worlds[i].viewer, guild)
    ensures var client, server := Now(h).mirrors.guilds, Now(h).db.guilds;
            && (guild in client <==> guild in server)
            && (guild in server ==> client[guild].deleted == server[guild].deleted)
  {
    GuildLensIsLawful();
    FetchConvergesFrom(GuildLens(), h, m, guild);
  }

  lemma GuildConverges(h: History, guild: Id)
    requires Happened(h) && Complete(h, Guilds) && JustPulled(h, Guilds)
    requires forall i | 0 <= i < |h.events| && h.events[i] == Pull(Guilds) ::
               guild in h.worlds[i].db.guilds ==> InGuild(h.worlds[i].db, h.worlds[i].viewer, guild)
    ensures var client, server := Now(h).mirrors.guilds, Now(h).db.guilds;
            && (guild in client <==> guild in server)
            && (guild in server ==> client[guild].deleted == server[guild].deleted)
  {
    GuildConvergesFrom(h, 0, guild);
  }
}
