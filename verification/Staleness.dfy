/** Where a client falls short of the server: rows it never gets, and edits it never sees. */
module Staleness {
  import opened Schema
  import opened Statements
  import opened SyncQueries
  import opened DeltaSync
  import opened Replica
  import opened SyncedTables
  import opened Convergence

  // ---- a row that is never sent ----

  // A guild whose row was last stamped before the watermark and is not on the client stays missing, through
  // any further statements and syncs, until the row is stamped again. Joining the guild does not stamp it.
  lemma MissedGuildStaysMissing(h: History, m: nat, guild: Id)
    requires Happened(h) && m < |h.worlds|
    requires guild in h.worlds[m].db.guilds && guild !in h.worlds[m].mirrors.guilds
    requires h.worlds[m].db.guilds[guild].updatedAt <= h.worlds[m].watermark
    ensures guild in Now(h).db.guilds
    ensures Now(h).db.guilds[guild].updatedAt == h.worlds[m].db.guilds[guild].updatedAt ==>
              guild !in Now(h).mirrors.guilds
  {
    GuildLensIsLawful();
    FrozenUntilStamped(GuildLens(), h, m, guild);
  }

  // One event more
  lemma Continue(h: History, e: Event) returns (h': History)
    requires Happened(h)
    ensures Happened(h') && Now(h') == Advance(Now(h), e)
    ensures h'.events == h.events + [e] && h'.worlds == h.worlds + [Now(h')]
    ensures forall r :: Complete(h', r) == (Complete(h, r) && (e == End ==> r in Now(h).pulled))
  {
    h' := History(h.worlds + [Advance(Now(h), e)], h.events + [e]);
    forall i | 0 <= i < |h'.events|
      ensures h'.worlds[i + 1] == Advance(h'.worlds[i], h'.events[i])
    {
    }
    forall r
      ensures Complete(h', r) == (Complete(h, r) && (e == End ==> r in Now(h).pulled))
    {
      assert forall i | 0 <= i < |h.events| :: h'.events[i] == h.events[i] && h'.worlds[i] == h.worlds[i];
      assert h'.events[|h.events|] == e && h'.worlds[|h.events|] == Now(h);
    }
  }

  // A viewer that syncs, then joins an older guild, then syncs again: live in the guild, yet without its row.
  const OWNER := OnUsers(CreateUser(1, "owner#0001", "owner", "o@x", ""))
  const LATE := OnUsers(CreateUser(2, "late#0002", "late", "l@x", ""))
  const GUILD := OnGuilds(CreateGuild(7, "guild", "", "", 1))
  const JOIN := OnGuildMembers(AddGuildMember(7, 2, "", None, None))
  const SETTING := Db(3,
                      map[1 := Row(User("owner#0001", "owner", "o@x", "", "", "", "offline", "", false, 1), false, 1),
                          2 := Row(User("late#0002", "late", "l@x", "", "", "", "offline", "", false, 2), false, 2)],
                      map[], map[7 := Row(Guild("guild", "", "", "", 1, 3), false, 3)],
                      map[], map[], map[], map[], map[], map[])

  lemma SettingIsReached()
    ensures Execute(Execute(Execute(EMPTY_DB, OWNER), LATE), GUILD) == SETTING
  {
    var db1 := Execute(EMPTY_DB, OWNER);
    assert db1.users == map[1 := SETTING.users[1]];
    var db2 := Execute(db1, LATE);
    assert db2.users == SETTING.users;
  }

  lemma SyncOutsideTheGuild(w: World)
    requires w.db.guildMembers == map[] && w.mirrors == NOTHING
    ensures Advance(w, Pull(Guilds)).mirrors == NOTHING
  {
    assert GuildScope(w.db, w.viewer) == {};
  }

  lemma JoinTheGuild()
    ensures var db := Execute(SETTING, JOIN);
            && db.clock == 4 && db.guilds == SETTING.guilds
            && InGuild(db, 2, 7)
  {
  }

  lemma SyncTooLate(w: World)
    requires w.db.guilds == SETTING.guilds && w.watermark == 3 && w.mirrors == NOTHING
    ensures Advance(w, Pull(Guilds)).mirrors == NOTHING
  {
  }

  lemma SyncOutside(h: History) returns (h': History)
    requires Happened(h) && Complete(h, Guilds)
    requires Now(h) == World(SETTING, 2, NOTHING, 0, 0, {})
    ensures Happened(h') && Complete(h', Guilds) && h'.events == h.events + [Begin, Pull(Guilds), End]
    ensures Now(h') == World(SETTING, 2, NOTHING, 3, 3, {Guilds})
  {
    h' := Continue(h, Begin);
    SyncOutsideTheGuild(Now(h'));
    h' := Continue(h', Pull(Guilds));
    h' := Continue(h', End);
  }

  lemma SyncInside(h: History) returns (h': History)
    requires Happened(h) && Complete(h, Guilds)
    requires Now(h) == World(Execute(SETTING, JOIN), 2, NOTHING, 3, 3, {Guilds})
    ensures Happened(h') && Complete(h', Guilds) && h'.events == h.events + [Begin, Pull(Guilds), End]
    ensures Now(h').db == Now(h).db && Now(h').viewer == 2 && Now(h').mirrors == NOTHING
  {
    JoinTheGuild();
    h' := Continue(h, Begin);
    SyncTooLate(Now(h'));
    h' := Continue(h', Pull(Guilds));
    h' := Continue(h', End);
  }

  lemma ReachSetting() returns (h: History)
    ensures Happened(h) && Complete(h, Guilds) && h.events == [Exec(OWNER), Exec(LATE), Exec(GUILD)]
    ensures Now(h) == World(SETTING, 2, NOTHING, 0, 0, {})
  {
    h := History([World(EMPTY_DB, 2, NOTHING, 0, 0, {})], []);
    h := Continue(h, Exec(OWNER));
    h := Continue(h, Exec(LATE));
    h := Continue(h, Exec(GUILD));
    SettingIsReached();
  }

  lemma LateJoinerMissesTheGuild() returns (h: History)
    ensures Happened(h) && Complete(h, Guilds)
    ensures h.events == [Exec(OWNER), Exec(LATE), Exec(GUILD), Begin, Pull(Guilds), End,
                         Exec(JOIN), Begin, Pull(Guilds), End]
    ensures var w := Now(h); w.viewer == 2 && InGuild(w.db, 2, 7) && Live(w.db.guilds, 7) && 7 !in w.mirrors.guilds
  {
    h := ReachSetting();
    h := SyncOutside(h);
    h := Continue(h, Exec(JOIN));
    h := SyncInside(h);
    JoinTheGuild();
  }

  // ---- edits of guilds, roles and channels ----

  // A client's guild, role or channel is right in every column exactly when the server's row is still the one last
  // brought: with unstamped edits, exactly when no edit changed it since.
  lemma UnstampedTablesRightIff(h: History, i: nat, id: Id)
    requires Happened(h) && i < |h.worlds|
    ensures LastBrings(GuildLens(), h, i, id) ==>
              (IsRight(GuildLens(), Now(h), id) <==> Held(Now(h).db.guilds, id) == Held(h.worlds[i].db.guilds, id))
    ensures LastBrings(RoleLens(), h, i, id) ==>
              (IsRight(RoleLens(), Now(h), id) <==> Held(Now(h).db.roles, id) == Held(h.worlds[i].db.roles, id))
    ensures LastBrings(ChannelLens(), h, i, id) ==>
              (IsRight(ChannelLens(), Now(h), id) <==>
                 Held(Now(h).db.channels, id) == Held(h.worlds[i].db.channels, id))
  {
    if LastBrings(GuildLens(), h, i, id) {
      GuildLensIsLawful();
      RightIffUnchanged(GuildLens(), h, i, id);
    }
    if LastBrings(RoleLens(), h, i, id) {
      RoleLensIsLawful();
      RightIffUnchanged(RoleLens(), h, i, id);
    }
    if LastBrings(ChannelLens(), h, i, id) {
      ChannelLensIsLawful();
      RightIffUnchanged(ChannelLens(), h, i, id);
    }
  }

  // A client whose row was right at m stays right exactly as long as the server's row is as it was, if no statement
  // stamps it again.
  lemma GoesStaleIffEdited<K(!new), D(!new), F(!new)>(lens: Lens<K, D, F>, h: History, m: nat, key: K)
    requires Lawful(lens) && Happened(h) && m < |h.worlds|
    requires key in lens.table(h.worlds[m].db) && IsRight(lens, h.worlds[m], key)
    requires lens.table(h.worlds[m].db)[key].updatedAt <= h.worlds[m].watermark
    ensures key in lens.table(Now(h).db)
    ensures lens.table(Now(h).db)[key].updatedAt == lens.table(h.worlds[m].db)[key].updatedAt ==>
              (IsRight(lens, Now(h), key) <==> lens.table(Now(h).db)[key] == lens.table(h.worlds[m].db)[key])
  {
    FrozenUntilStamped(lens, h, m, key);
  }

  lemma ChannelGoesStaleIffEdited(h: History, m: nat, id: Id)
    requires Happened(h) && m < |h.worlds|
    requires id in h.worlds[m].db.channels
    requires Held(h.worlds[m].mirrors.channels, id) == Some(h.worlds[m].db.channels[id])
    requires h.worlds[m].db.channels[id].updatedAt <= h.worlds[m].watermark
    ensures id in Now(h).db.channels
    ensures Now(h).db.channels[id].updatedAt == h.worlds[m].db.channels[id].updatedAt ==>
              (Held(Now(h).mirrors.channels, id) == Some(Now(h).db.channels[id]) <==>
                 Now(h).db.channels[id] == h.worlds[m].db.channels[id])
  {
    ChannelLensIsLawful();
    GoesStaleIffEdited(ChannelLens(), h, m, id);
  }

  // ---- an owner's client that syncs, then sees none of three edits ----

  const ENTER := OnGuildMembers(AddGuildMember(7, 1, "", None, None))
  const ROLE := OnRoles(CreateRole(8, 7, "role", "", 0))
  const CHANNEL := OnChannels(CreateChannel(9, Some(7), "channel", 1, "", 0, None))
  const RENAME_GUILD := OnGuilds(UpdateGuild(7, Some("new"), None, None, None))
  const RENAME_ROLE := OnRoles(UpdateRole(8, Some("new"), None, None))
  const RENAME_CHANNEL := OnChannels(UpdateChannel(9, Some("new"), None, None, None))
  const EDITS := [Exec(RENAME_GUILD), Exec(RENAME_ROLE), Exec(RENAME_CHANNEL)]
  const SYNC := [Begin, Pull(Guilds), Pull(Roles), Pull(Channels), End]
  const SETUP := [Exec(OWNER), Exec(GUILD), Exec(ENTER), Exec(ROLE), Exec(CHANNEL)]

  function AdvanceAll(w: World, events: seq<Event>): World
    decreases |events|
  {
    if events == [] then w else AdvanceAll(Advance(w, events[0]), events[1..])
  }

  lemma {:induction false} ContinueAll(h: History, events: seq<Event>) returns (h': History)
    requires Happened(h)
    ensures Happened(h') && Now(h') == AdvanceAll(Now(h), events)
    ensures h'.events == h.events + events && h.worlds <= h'.worlds
    decreases |events|
  {
    if events == [] {
      h' := h;
    } else {
      h' := Continue(h, events[0]);
      h' := ContinueAll(h', events[1..]);
      assert [events[0]] + events[1..] == events;
    }
  }

  // A guild, one role of it and one channel of it, and a member
  predicate Stage(db: Db) {
    && InGuild(db, 1, 7)
    && 7 in db.guilds && 0 < db.guilds[7].updatedAt <= db.clock
    && 8 in db.roles && db.roles[8].data.guild == 7 && 0 < db.roles[8].updatedAt <= db.clock
    && 9 in db.channels && db.channels[9].data.guild == Some(7) && 0 < db.channels[9].updatedAt <= db.clock
  }

  lemma FiveEvents(w: World, e1: Event, e2: Event, e3: Event, e4: Event, e5: Event)
    ensures AdvanceAll(w, [e1, e2, e3, e4, e5]) == Advance(Advance(Advance(Advance(Advance(w, e1), e2), e3), e4), e5)
  {
    ThreeEvents(Advance(Advance(w, e1), e2), e3, e4, e5);
    assert [e1, e2, e3, e4, e5][1..] == [e2, e3, e4, e5] && [e2, e3, e4, e5][1..] == [e3, e4, e5];
  }

  lemma ThreeEvents(w: World, e1: Event, e2: Event, e3: Event)
    ensures AdvanceAll(w, [e1, e2, e3]) == Advance(Advance(Advance(w, e1), e2), e3)
  {
    assert [e1, e2, e3][1..] == [e2, e3] && [e2, e3][1..] == [e3] && [e3][1..] == [];
    assert AdvanceAll(w, [e1, e2, e3]) == AdvanceAll(Advance(w, e1), [e2, e3]);
    assert AdvanceAll(Advance(w, e1), [e2, e3]) == AdvanceAll(Advance(Advance(w, e1), e2), [e3]);
  }

  lemma SetUpOwner()
    ensures var db := Execute(Execute(EMPTY_DB, OWNER), GUILD);
            && 1 in db.users && db.clock == 2 && db.guilds == map[7 := Row(Guild("guild", "", "", "", 1, 2), false, 2)]
            && db.guildMembers == map[] && db.roles == map[] && db.channels == map[]
  {
    assert 1 in Execute(EMPTY_DB, OWNER).users;
  }

  lemma SetUpGuild(db: Db)
    requires 1 in db.users && 7 in db.guilds && db.guildMembers == map[] && db.roles == map[] && db.channels == map[]
    ensures var db' := Execute(Execute(Execute(db, ENTER), ROLE), CHANNEL);
            && db'.guilds == db.guilds && InGuild(db', 1, 7) && db'.clock == db.clock + 3
            && db'.roles == map[8 := Row(Role(7, "role", "", 0, db.clock + 2), false, db.clock + 2)]
            && db'.channels ==
                 map[9 := Row(Channel(Some(7), "channel", 1, "", 0, None, db.clock + 3), false, db.clock + 3)]
  {
    var db1 := Execute(db, ENTER);
    assert InGuild(db1, 1, 7) && db1.guilds == db.guilds && db1.roles == map[] && db1.channels == map[];
    var db2 := Execute(db1, ROLE);
    assert db2.guildMembers == db1.guildMembers && db2.guilds == db.guilds && db2.channels == map[];
  }

  lemma SetUp(w: World)
    requires w.db == EMPTY_DB
    ensures var w' := AdvanceAll(w, SETUP);
            && Stage(w'.db) && w' == w.(db := w'.db)
            && w'.db.guilds[7].data.name == "guild" && w'.db.roles[8].data.name == "role"
            && w'.db.channels[9].data.name == "channel"
  {
    SetUpOwner();
    SetUpGuild(Execute(Execute(EMPTY_DB, OWNER), GUILD));
    FiveEvents(w, Exec(OWNER), Exec(GUILD), Exec(ENTER), Exec(ROLE), Exec(CHANNEL));
  }

  lemma SyncTheStage(w: World)
    requires w.viewer == 1 && Stage(w.db) && w.watermark == 0
    ensures var w' := AdvanceAll(w, SYNC);
            && w'.db == w.db && w'.watermark == w.db.clock && w'.viewer == 1
            && IsRight(GuildLens(), w', 7) && IsRight(RoleLens(), w', 8) && IsRight(ChannelLens(), w', 9)
  {
    FiveEvents(w, Begin, Pull(Guilds), Pull(Roles), Pull(Channels), End);
    assert 7 in GuildScope(w.db, 1) && 8 in RoleScope(w.db, 1) && 9 in ChannelScope(w.db, 1);
  }

  function RenamedGuild(row: Row<Guild>): Row<Guild> { row.(data := row.data.(name := "new")) }
  function RenamedRole(row: Row<Role>): Row<Role> { row.(data := row.data.(name := "new")) }
  function RenamedChannel(row: Row<Channel>): Row<Channel> { row.(data := row.data.(name := "new")) }

  lemma RenameGuild(db: Db)
    requires 7 in db.guilds
    ensures Execute(db, RENAME_GUILD) ==
              db.(clock := db.clock + 1, guilds := db.guilds[7 := RenamedGuild(db.guilds[7])])
  {
  }

  lemma RenameRole(db: Db)
    requires 8 in db.roles
    ensures Execute(db, RENAME_ROLE) ==
              db.(clock := db.clock + 1, roles := db.roles[8 := RenamedRole(db.roles[8])])
  {
  }

  lemma RenameChannel(db: Db)
    requires 9 in db.channels
    ensures Execute(db, RENAME_CHANNEL) ==
              db.(clock := db.clock + 1, channels := db.channels[9 := RenamedChannel(db.channels[9])])
  {
  }

  lemma EditTheStage(w: World)
    requires Stage(w.db)
    ensures var db, w' := w.db, AdvanceAll(w, EDITS);
            && w' == w.(db := w'.db) && InGuild(w'.db, 1, 7)
            && w'.db.guilds == db.guilds[7 := RenamedGuild(db.guilds[7])]
            && w'.db.roles == db.roles[8 := RenamedRole(db.roles[8])]
            && w'.db.channels == db.channels[9 := RenamedChannel(db.channels[9])]
  {
    RenameGuild(w.db);
    RenameRole(Execute(w.db, RENAME_GUILD));
    RenameChannel(Execute(Execute(w.db, RENAME_GUILD), RENAME_ROLE));
    ThreeEvents(w, Exec(RENAME_GUILD), Exec(RENAME_ROLE), Exec(RENAME_CHANNEL));
  }

  lemma SyncKeepsDb(w: World)
    ensures AdvanceAll(w, SYNC).db == w.db && AdvanceAll(w, SYNC).viewer == w.viewer
  {
    FiveEvents(w, Begin, Pull(Guilds), Pull(Roles), Pull(Channels), End);
  }

  // Rows of another name and the same stamp: whatever else the client fetches, it keeps the old ones.
  lemma EditedRowsAreStale(h: History, m: nat)
    requires Happened(h) && m < |h.worlds| && Stage(h.worlds[m].db)
    requires var w := h.worlds[m];
             && w.watermark == w.db.clock
             && IsRight(GuildLens(), w, 7) && IsRight(RoleLens(), w, 8) && IsRight(ChannelLens(), w, 9)
             && w.db.guilds[7].data.name == "guild" && w.db.roles[8].data.name == "role"
             && w.db.channels[9].data.name == "channel"
             && Held(Now(h).db.guilds, 7) == Some(RenamedGuild(w.db.guilds[7]))
             && Held(Now(h).db.roles, 8) == Some(RenamedRole(w.db.roles[8]))
             && Held(Now(h).db.channels, 9) == Some(RenamedChannel(w.db.channels[9]))
    ensures !IsRight(GuildLens(), Now(h), 7) && !IsRight(RoleLens(), Now(h), 8) && !IsRight(ChannelLens(), Now(h), 9)
  {
    GuildLensIsLawful();
    GoesStaleIffEdited(GuildLens(), h, m, 7);
    RoleLensIsLawful();
    GoesStaleIffEdited(RoleLens(), h, m, 8);
    ChannelLensIsLawful();
    GoesStaleIffEdited(ChannelLens(), h, m, 9);
  }

  lemma SyncedStage() returns (h: History)
    ensures Happened(h) && h.events == SETUP + SYNC
    ensures var w := Now(h);
            && w.viewer == 1 && Stage(w.db) && w.watermark == w.db.clock
            && IsRight(GuildLens(), w, 7) && IsRight(RoleLens(), w, 8) && IsRight(ChannelLens(), w, 9)
            && w.db.guilds[7].data.name == "guild" && w.db.roles[8].data.name == "role"
            && w.db.channels[9].data.name == "channel"
  {
    h := History([World(EMPTY_DB, 1, NOTHING, 0, 0, {})], []);
    SetUp(Now(h));
    h := ContinueAll(h, SETUP);
    SyncTheStage(Now(h));
    h := ContinueAll(h, SYNC);
  }

  lemma EditsGoUnseen() returns (h: History)
    ensures Happened(h) && h.events == SETUP + SYNC + EDITS + SYNC
    ensures var w := Now(h);
            && InGuild(w.db, w.viewer, 7)
            && !IsRight(GuildLens(), w, 7) && !IsRight(RoleLens(), w, 8) && !IsRight(ChannelLens(), w, 9)
  {
    h := SyncedStage();
    var m := |h.events|;
    EditTheStage(Now(h));
    h := ContinueAll(h, EDITS);
    SyncKeepsDb(Now(h));
    h := ContinueAll(h, SYNC);
    EditedRowsAreStale(h, m);
  }
}
