/** The writing queries as methods that change the tables in place, and the Sync queries as loops over rows. */
module Queries {
  import opened Schema
  import opened Statements
  import opened SyncQueries
  import opened DeltaSync
  import opened Friendships

  // A result list without repeats that holds exactly the rows of t
  ghost predicate Enumerates<K, D>(items: seq<(K, Row<D>)>, t: Table<K, D>) {
    && (forall i, j | 0 <= i < j < |items| :: items[i].0 != items[j].0)
    && (forall i | 0 <= i < |items| :: items[i].0 in t && t[items[i].0] == items[i].1)
    && |items| == |t|
  }

  lemma VisitRow<K, D>(items: seq<(K, Row<D>)>, delta: Table<K, D>, rest: set<K>, key: K)
    requires key in rest && Enumerates(items, delta - rest)
    ensures key in delta ==> Enumerates(items + [(key, delta[key])], delta - (rest - {key}))
    ensures key !in delta ==> Enumerates(items, delta - (rest - {key}))
  {
    if key in delta {
      assert delta - (rest - {key}) == (delta - rest)[key := delta[key]];
    } else {
      assert delta - (rest - {key}) == delta - rest;
    }
  }

  // The loop every Sync query runs over its rows, which come in an order the database chooses
  method CollectRows<K(==), D>(t: Table<K, D>, scope: set<K>, since: Time) returns (items: seq<(K, Row<D>)>)
    ensures Enumerates(items, Delta(t, scope, since))
  {
    items := [];
    ghost var delta := Delta(t, scope, since);
    var rest := t.Keys;
    while rest != {}
      invariant rest <= t.Keys
      invariant Enumerates(items, delta - rest)
    {
      var key :| key in rest;
      VisitRow(items, delta, rest, key);
      if t[key].updatedAt > since && key in scope {
        items := items + [(key, t[key])];
      }
      rest := rest - {key};
    }
    assert delta - {} == delta;
  }

  // A client that merges the received rows one at a time, by key
  function MergeRows<K, D>(mirror: Table<K, D>, items: seq<(K, Row<D>)>): Table<K, D> {
    if items == [] then mirror
    else
      var last := items[|items| - 1];
      MergeRows(mirror, items[..|items| - 1])[last.0 := last.1]
  }

  lemma EnumeratesWithoutLast<K, D>(items: seq<(K, Row<D>)>, t: Table<K, D>)
    requires Enumerates(items, t) && items != []
    ensures var last := items[|items| - 1];
            Enumerates(items[..|items| - 1], t - {last.0}) && t == (t - {last.0})[last.0 := last.1]
  {
    var last := items[|items| - 1];
    var rest := t - {last.0};
    assert last.0 in t && t[last.0] == last.1;
    assert t == rest[last.0 := last.1];
  }

  lemma MergeOneMore<K, D>(mirror: Table<K, D>, delta: Table<K, D>, key: K, row: Row<D>)
    ensures Merge(mirror, delta)[key := row] == Merge(mirror, delta[key := row])
  {
  }

  // Whatever order the rows came in, merging them is merging the delta.
  lemma {:induction false} MergingRowsMergesDelta<K, D>(mirror: Table<K, D>, items: seq<(K, Row<D>)>, t: Table<K, D>)
    requires Enumerates(items, t)
    ensures MergeRows(mirror, items) == Merge(mirror, t)
  {
    if items == [] {
      assert t == map[];
    } else {
      var last := items[|items| - 1];
      EnumeratesWithoutLast(items, t);
      MergingRowsMergesDelta(mirror, items[..|items| - 1], t - {last.0});
      MergeOneMore(mirror, t - {last.0}, last.0, last.1);
    }
  }

  // ---- what a list of rows shows, key by key ----

  predicate Lists<K(==), D>(items: seq<(K, Row<D>)>, key: K) {
    exists i | 0 <= i < |items| :: items[i].0 == key
  }

  // Every row comes once and as the table has it.
  predicate RowsOnce<K(==), D(==)>(items: seq<(K, Row<D>)>, t: Table<K, D>) {
    && (forall i, j | 0 <= i < j < |items| :: items[i].0 != items[j].0)
    && (forall i | 0 <= i < |items| :: items[i].0 in t && t[items[i].0] == items[i].1)
  }

  lemma {:induction false} EnumeratesAll<K, D>(items: seq<(K, Row<D>)>, t: Table<K, D>, key: K)
    requires Enumerates(items, t)
    ensures Lists(items, key) <==> key in t
  {
    if items == [] {
      assert t == map[];
    } else {
      var n := |items| - 1;
      EnumeratesWithoutLast(items, t);
      EnumeratesAll(items[..n], t - {items[n].0}, key);
      if Lists(items[..n], key) {
        var i :| 0 <= i < n && items[..n][i].0 == key;
        assert items[i].0 == key;
      }
    }
  }

  lemma DeltaIsListed<K(!new), D>(items: seq<(K, Row<D>)>, t: Table<K, D>, scope: set<K>, since: Time)
    requires Enumerates(items, Delta(t, scope, since))
    ensures RowsOnce(items, t)
    ensures forall key :: Lists(items, key) <==> key in t && key in scope && t[key].updatedAt > since
  {
    forall key
      ensures Lists(items, key) <==> key in t && key in scope && t[key].updatedAt > since
    {
      EnumeratesAll(items, Delta(t, scope, since), key);
    }
  }

  // The loop of a list query, over the rows its WHERE clause lets through
  method CollectWhere<K(==), D>(t: Table<K, D>, wanted: set<K>) returns (items: seq<(K, Row<D>)>)
    requires wanted <= t.Keys
    ensures RowsOnce(items, t)
    ensures forall key :: Lists(items, key) <==> key in wanted
  {
    items := [];
    var rest := wanted;
    while rest != {}
      invariant rest <= wanted
      invariant RowsOnce(items, t)
      invariant forall key :: Lists(items, key) <==> key in wanted && key !in rest
    {
      var key :| key in rest;
      ghost var before := items;
      items := items + [(key, t[key])];
      rest := rest - {key};
      assert items[|before|].0 == key;
      forall k
        ensures Lists(items, k) <==> Lists(before, k) || k == key
      {
        if Lists(before, k) {
          var i :| 0 <= i < |before| && before[i].0 == k;
          assert items[i].0 == k;
        }
      }
    }
  }

  class Queries {
    var clock: Time
    var users: Table<Id, User>
    var friendships: Table<(Id, Id), Friendship>
    var guilds: Table<Id, Guild>
    var guildMembers: Table<(Id, Id), GuildMember>
    var bans: Table<(Id, Id), Ban>
    var roles: Table<Id, Role>
    var roleMembers: Table<(Id, Id), Link>
    var channels: Table<Id, Channel>
    var dmMembers: Table<(Id, Id), Link>

    function State(): Db
      reads this
    {
      Db(clock, users, friendships, guilds, guildMembers, bans, roles, roleMembers, channels, dmMembers)
    }

    constructor ()
      ensures State() == EMPTY_DB
    {
      clock := 0;
      users, friendships, guilds, guildMembers, bans := map[], map[], map[], map[], map[];
      roles, roleMembers, channels, dmMembers := map[], map[], map[], map[];
    }

    // ---- users.sql.go ----

    method CreateUser(id: Id, username: string, displayName: string, email: string, passwordHash: string)
      returns (outcome: Outcome)
      modifies this
      ensures var s := OnUsers(UserStatement.CreateUser(id, username, displayName, email, passwordHash));
              outcome == Check(old(State()), s) && State() == Execute(old(State()), s)
      ensures State() == old(State()).(clock := old(clock) + 1, users := users)
      ensures outcome == if id in old(users) ||
                            exists u | u in old(users) ::
                              old(users)[u].data.username == username || old(users)[u].data.email == email
                         then UniqueViolation
                         else Applied
      ensures outcome != Applied ==> users == old(users)
      ensures outcome == Applied ==>
                users == old(users)[id := Row(
                  User(username := username, displayName := displayName, email := email, passwordHash := passwordHash,
                       avatarUrl := "", bio := "", status := "offline", backgroundColor := "", verified := false,
                       createdAt := clock), false, clock)]
    {
      clock := clock + 1;
      if id in users || UsernameTaken(users, username, None) || EmailTaken(users, email) {
        return UniqueViolation;
      }
      users := users[id := Row(User(username, displayName, email, passwordHash, "", "", "offline", "", false, clock),
                               false, clock)];
      return Applied;
    }

    method UpdateUser(id: Id, username: Option<string>, displayName: Option<string>, avatarUrl: Option<string>,
                      bio: Option<string>, status: Option<string>, backgroundColor: Option<string>)
      returns (outcome: Outcome)
      modifies this
      ensures var s := OnUsers(UserStatement.UpdateUser(id, username, displayName, avatarUrl, bio, status,
                                                        backgroundColor));
              outcome == Check(old(State()), s) && State() == Execute(old(State()), s)
      ensures State() == old(State()).(clock := old(clock) + 1, users := users)
      ensures outcome == if id !in old(users) then NoRows
                         else if username.Some? && exists u | u in old(users) ::
                                 u != id && old(users)[u].data.username == username.value
                              then UniqueViolation
                         else Applied
      ensures outcome != Applied ==> users == old(users)
      ensures outcome == Applied ==>
                var was := old(users)[id];
                users == old(users)[id := Row(
                  User(username := if username.Some? then username.value else was.data.username,
                       displayName := if displayName.Some? then displayName.value else was.data.displayName,
                       email := was.data.email, passwordHash := was.data.passwordHash,
                       avatarUrl := if avatarUrl.Some? then avatarUrl.value else was.data.avatarUrl,
                       bio := if bio.Some? then bio.value else was.data.bio,
                       status := if status.Some? then status.value else was.data.status,
                       backgroundColor := if backgroundColor.Some? then backgroundColor.value
                                          else was.data.backgroundColor,
                       verified := was.data.verified, createdAt := was.data.createdAt), was.deleted, clock)]
    {
      clock := clock + 1;
      if id !in users {
        return NoRows;
      }
      if username.Some? && UsernameTaken(users, username.value, Some(id)) {
        return UniqueViolation;
      }
      var user := users[id].data;
      user := user.(username := Coalesce(username, user.username),
                    displayName := Coalesce(displayName, user.displayName),
                    avatarUrl := Coalesce(avatarUrl, user.avatarUrl),
                    bio := Coalesce(bio, user.bio),
                    status := Coalesce(status, user.status),
                    backgroundColor := Coalesce(backgroundColor, user.backgroundColor));
      users := users[id := Row(user, users[id].deleted, clock)];
      return Applied;
    }

    method VerifyUser(id: Id) returns (outcome: Outcome)
      modifies this
      ensures var s := OnUsers(UserStatement.VerifyUser(id));
              outcome == Check(old(State()), s) && State() == Execute(old(State()), s)
      ensures State() == old(State()).(clock := old(clock) + 1, users := users)
      ensures outcome == if id !in old(users) then NoRows
                         else Applied
      ensures outcome != Applied ==> users == old(users)
      ensures outcome == Applied ==>
                var was := old(users)[id];
                users == old(users)[id := Row(was.data.(verified := true), was.deleted, clock)]
    {
      clock := clock + 1;
      if id !in users {
        return NoRows;
      }
      users := users[id := Row(users[id].data.(verified := true), users[id].deleted, clock)];
      return Applied;
    }

    method DeleteUser(id: Id)
      modifies this
      ensures State() == Execute(old(State()), OnUsers(UserStatement.DeleteUser(id)))
      ensures State() == old(State()).(clock := old(clock) + 1, users := users)
      ensures users == if id in old(users)
              then old(users)[id := Row(old(users)[id].data, true, clock)]
              else old(users)
    {
      clock := clock + 1;
      if id in users {
        users := users[id := users[id].(deleted := true, updatedAt := clock)];
      }
    }

    // ---- friendships.sql.go ----

    method CreateFriendship(user: Id, friend: Id, status: string) returns (outcome: Outcome)
      modifies this
      ensures var s := OnFriendships(FriendshipStatement.CreateFriendship(user, friend, status));
              outcome == Check(old(State()), s) && State() == Execute(old(State()), s)
      ensures State() == old(State()).(clock := old(clock) + 1, friendships := friendships)
      ensures outcome == if user in old(users) && friend in old(users) then Applied
                         else ForeignKeyViolation
      ensures outcome != Applied ==> friendships == old(friendships)
      ensures outcome == Applied ==>
                var key := (user, friend);
                var createdAt := if key in old(friendships) then old(friendships)[key].data.createdAt else clock;
                friendships == old(friendships)[key := Row(Friendship(status, createdAt), false, clock)]
    {
      clock := clock + 1;
      if user !in users || friend !in users {
        return ForeignKeyViolation;
      }
      var key := (user, friend);
      if key in friendships {
        var row := friendships[key];
        friendships := friendships[key := Row(row.data.(status := status), false, clock)];
      } else {
        friendships := friendships[key := Row(Friendship(status, clock), false, clock)];
      }
      return Applied;
    }

    method UpdateFriendshipStatus(user: Id, friend: Id, status: string) returns (outcome: Outcome)
      modifies this
      ensures var s := OnFriendships(FriendshipStatement.UpdateFriendshipStatus(user, friend, status));
              outcome == Check(old(State()), s) && State() == Execute(old(State()), s)
      ensures State() == old(State()).(clock := old(clock) + 1, friendships := friendships)
      ensures outcome == if (user, friend) !in old(friendships) then NoRows
                         else Applied
      ensures outcome != Applied ==> friendships == old(friendships)
      ensures outcome == Applied ==>
                var was := old(friendships)[(user, friend)];
                friendships == old(friendships)[(user, friend) := 
                  Row(Friendship(status, was.data.createdAt), was.deleted, was.updatedAt)]
    {
      clock := clock + 1;
      var key := (user, friend);
      if key !in friendships {
        return NoRows;
      }
      friendships := friendships[key := friendships[key].(data := friendships[key].data.(status := status))];
      return Applied;
    }

    method DeleteFriendship(user: Id, friend: Id)
      modifies this
      ensures State() == Execute(old(State()), OnFriendships(FriendshipStatement.DeleteFriendship(user, friend)))
      ensures State() == old(State()).(clock := old(clock) + 1, friendships := friendships)
      ensures friendships.Keys == old(friendships).Keys
      ensures forall key | key in friendships ::
                friendships[key] ==
                  if key == (user, friend) || key == (friend, user) then Row(old(friendships)[key].data, true, clock)
                  else old(friendships)[key]
    {
      clock := clock + 1;
      if (user, friend) in friendships {
        friendships := friendships[(user, friend) :=
          friendships[(user, friend)].(deleted := true, updatedAt := clock)];
      }
      if (friend, user) in friendships {
        friendships := friendships[(friend, user) :=
          friendships[(friend, user)].(deleted := true, updatedAt := clock)];
      }
    }

    // ---- guilds.sql.go ----

    method CreateGuild(id: Id, name: string, description: string, iconUrl: string, owner: Id)
      returns (outcome: Outcome)
      modifies this
      ensures var s := OnGuilds(GuildStatement.CreateGuild(id, name, description, iconUrl, owner));
              outcome == Check(old(State()), s) && State() == Execute(old(State()), s)
      ensures State() == old(State()).(clock := old(clock) + 1, guilds := guilds)
      ensures outcome == if id in old(guilds) then UniqueViolation
                         else if owner in old(users) then Applied
                         else ForeignKeyViolation
      ensures outcome != Applied ==> guilds == old(guilds)
      ensures outcome == Applied ==>
                guilds == old(guilds)[id := Row(
                  Guild(name := name, description := description, iconUrl := iconUrl, bannerUrl := "", owner := owner,
                        createdAt := clock), false, clock)]
    {
      clock := clock + 1;
      if id in guilds {
        return UniqueViolation;
      }
      if owner !in users {
        return ForeignKeyViolation;
      }
      guilds := guilds[id := Row(Guild(name, description, iconUrl, "", owner, clock), false, clock)];
      return Applied;
    }

    method UpdateGuild(id: Id, name: Option<string>, description: Option<string>, iconUrl: Option<string>,
                       bannerUrl: Option<string>)
      returns (outcome: Outcome)
      modifies this
      ensures var s := OnGuilds(GuildStatement.UpdateGuild(id, name, description, iconUrl, bannerUrl));
              outcome == Check(old(State()), s) && State() == Execute(old(State()), s)
      ensures State() == old(State()).(clock := old(clock) + 1, guilds := guilds)
      ensures outcome == if id !in old(guilds) then NoRows
                         else Applied
      ensures outcome != Applied ==> guilds == old(guilds)
      ensures outcome == Applied ==>
                var was := old(guilds)[id];
                guilds == old(guilds)[id := Row(
                  Guild(name := if name.Some? then name.value else was.data.name,
                        description := if description.Some? then description.value else was.data.description,
                        iconUrl := if iconUrl.Some? then iconUrl.value else was.data.iconUrl,
                        bannerUrl := if bannerUrl.Some? then bannerUrl.value else was.data.bannerUrl,
                        owner := was.data.owner, createdAt := was.data.createdAt), was.deleted, was.updatedAt)]
    {
      clock := clock + 1;
      if id !in guilds {
        return NoRows;
      }
      var guild := guilds[id].data;
      guild := guild.(name := Coalesce(name, guild.name));
      guild := guild.(description := Coalesce(description, guild.description));
      guild := guild.(iconUrl := Coalesce(iconUrl, guild.iconUrl));
      guild := guild.(bannerUrl := Coalesce(bannerUrl, guild.bannerUrl));
      guilds := guilds[id := guilds[id].(data := guild)];
      return Applied;
    }

    method TransferGuildOwnership(id: Id, owner: Id) returns (outcome: Outcome)
      modifies this
      ensures var s := OnGuilds(GuildStatement.TransferGuildOwnership(id, owner));
              outcome == Check(old(State()), s) && State() == Execute(old(State()), s)
      ensures State() == old(State()).(clock := old(clock) + 1, guilds := guilds)
      ensures outcome == if id !in old(guilds) then NoRows
                         else if owner in old(users) then Applied
                         else ForeignKeyViolation
      ensures outcome != Applied ==> guilds == old(guilds)
      ensures outcome == Applied ==>
                var was := old(guilds)[id];
                guilds == old(guilds)[id := 
                  Row(was.data.(owner := owner), was.deleted, was.updatedAt)]
    {
      clock := clock + 1;
      if id !in guilds {
        return NoRows;
      }
      if owner !in users {
        return ForeignKeyViolation;
      }
      guilds := guilds[id := guilds[id].(data := guilds[id].data.(owner := owner))];
      return Applied;
    }

    method DeleteGuild(id: Id)
      modifies this
      ensures State() == Execute(old(State()), OnGuilds(GuildStatement.DeleteGuild(id)))
      ensures State() == old(State()).(clock := old(clock) + 1, guilds := guilds)
      ensures guilds == if id in old(guilds)
              then old(guilds)[id := Row(old(guilds)[id].data, true, clock)]
              else old(guilds)
    {
      clock := clock + 1;
      if id in guilds {
        guilds := guilds[id := guilds[id].(deleted := true, updatedAt := clock)];
      }
    }

    method AddGuildMember(guild: Id, user: Id, nickname: string, inviteCode: Option<string>, invitedBy: Option<Id>)
      returns (outcome: Outcome)
      modifies this
      ensures var s := OnGuildMembers(GuildMemberStatement.AddGuildMember(guild, user, nickname, inviteCode,
                                                                          invitedBy));
              outcome == Check(old(State()), s) && State() == Execute(old(State()), s)
      ensures State() == old(State()).(clock := old(clock) + 1, guildMembers := guildMembers)
      ensures outcome == if guild in old(guilds) && user in old(users) &&
                            (invitedBy.Some? ==> invitedBy.value in old(users))
                         then Applied
                         else ForeignKeyViolation
      ensures outcome != Applied ==> guildMembers == old(guildMembers)
      ensures outcome == Applied ==>
                var key := (guild, user);
                var joinedAt := if key in old(guildMembers) then old(guildMembers)[key].data.joinedAt else clock;
                guildMembers == old(guildMembers)[key :=
                  Row(GuildMember(nickname := nickname, inviteCode := inviteCode, invitedBy := invitedBy,
                                  joinedAt := joinedAt), false, clock)]
    {
      clock := clock + 1;
      if guild !in guilds || user !in users || (invitedBy.Some? && invitedBy.value !in users) {
        return ForeignKeyViolation;
      }
      var key := (guild, user);
      if key in guildMembers {
        var member := guildMembers[key].data.(nickname := nickname, inviteCode := inviteCode, invitedBy := invitedBy);
        guildMembers := guildMembers[key := Row(member, false, clock)];
      } else {
        guildMembers := guildMembers[key := Row(GuildMember(nickname, inviteCode, invitedBy, clock), false, clock)];
      }
      return Applied;
    }

    method RemoveGuildMember(guild: Id, user: Id)
      modifies this
      ensures State() == Execute(old(State()), OnGuildMembers(GuildMemberStatement.RemoveGuildMember(guild, user)))
      ensures State() == old(State()).(clock := old(clock) + 1, guildMembers := guildMembers)
      ensures guildMembers == if (guild, user) in old(guildMembers)
              then old(guildMembers)[(guild, user) := Row(old(guildMembers)[(guild, user)].data, true, clock)]
              else old(guildMembers)
    {
      clock := clock + 1;
      var key := (guild, user);
      if key in guildMembers {
        guildMembers := guildMembers[key := guildMembers[key].(deleted := true, updatedAt := clock)];
      }
    }

    method CreateBan(guild: Id, user: Id, reason: string) returns (outcome: Outcome)
      modifies this
      ensures var s := OnBans(BanStatement.CreateBan(guild, user, reason));
              outcome == Check(old(State()), s) && State() == Execute(old(State()), s)
      ensures State() == old(State()).(clock := old(clock) + 1, bans := bans)
      ensures outcome == if guild in old(guilds) && user in old(users) then Applied
                         else ForeignKeyViolation
      ensures outcome != Applied ==> bans == old(bans)
      ensures outcome == Applied ==>
                var key := (guild, user);
                var createdAt := if key in old(bans) then old(bans)[key].data.createdAt else clock;
                bans == old(bans)[key := Row(Ban(reason, createdAt), false, clock)]
    {
      clock := clock + 1;
      if guild !in guilds || user !in users {
        return ForeignKeyViolation;
      }
      var key := (guild, user);
      if key in bans {
        bans := bans[key := Row(bans[key].data.(reason := reason), false, clock)];
      } else {
        bans := bans[key := Row(Ban(reason, clock), false, clock)];
      }
      return Applied;
    }

    method DeleteBan(guild: Id, user: Id)
      modifies this
      ensures State() == Execute(old(State()), OnBans(BanStatement.DeleteBan(guild, user)))
      ensures State() == old(State()).(clock := old(clock) + 1, bans := bans)
      ensures bans == if (guild, user) in old(bans)
              then old(bans)[(guild, user) := Row(old(bans)[(guild, user)].data, true, clock)]
              else old(bans)
    {
      clock := clock + 1;
      var key := (guild, user);
      if key in bans {
        bans := bans[key := bans[key].(deleted := true, updatedAt := clock)];
      }
    }

    // ---- roles.sql.go ----

    method CreateRole(id: Id, guild: Id, name: string, color: string, position: int) returns (outcome: Outcome)
      modifies this
      ensures var s := OnRoles(RoleStatement.CreateRole(id, guild, name, color, position));
              outcome == Check(old(State()), s) && State() == Execute(old(State()), s)
      ensures State() == old(State()).(clock := old(clock) + 1, roles := roles)
      ensures outcome == if id in old(roles) then UniqueViolation
                         else if guild in old(guilds) then Applied
                         else ForeignKeyViolation
      ensures outcome != Applied ==> roles == old(roles)
      ensures outcome == Applied ==>
                roles == old(roles)[id := Row(
                  Role(guild := guild, name := name, color := color, position := position, createdAt := clock),
                  false, clock)]
    {
      clock := clock + 1;
      if id in roles {
        return UniqueViolation;
      }
      if guild !in guilds {
        return ForeignKeyViolation;
      }
      roles := roles[id := Row(Role(guild, name, color, position, clock), false, clock)];
      return Applied;
    }

    method UpdateRole(id: Id, name: Option<string>, color: Option<string>, position: Option<int>)
      returns (outcome: Outcome)
      modifies this
      ensures var s := OnRoles(RoleStatement.UpdateRole(id, name, color, position));
              outcome == Check(old(State()), s) && State() == Execute(old(State()), s)
      ensures State() == old(State()).(clock := old(clock) + 1, roles := roles)
      ensures outcome == if id !in old(roles) then NoRows
                         else Applied
      ensures outcome != Applied ==> roles == old(roles)
      ensures outcome == Applied ==>
                var was := old(roles)[id];
                roles == old(roles)[id := Row(
                  Role(guild := was.data.guild, name := if name.Some? then name.value else was.data.name,
                       color := if color.Some? then color.value else was.data.color,
                       position := if position.Some? then position.value else was.data.position,
                       createdAt := was.data.createdAt), was.deleted, was.updatedAt)]
    {
      clock := clock + 1;
      if id !in roles {
        return NoRows;
      }
      var role := roles[id].data;
      role := role.(name := Coalesce(name, role.name));
      role := role.(color := Coalesce(color, role.color));
      role := role.(position := Coalesce(position, role.position));
      roles := roles[id := roles[id].(data := role)];
      return Applied;
    }

    method DeleteRole(id: Id)
      modifies this
      ensures State() == Execute(old(State()), OnRoles(RoleStatement.DeleteRole(id)))
      ensures State() == old(State()).(clock := old(clock) + 1, roles := roles)
      ensures roles == if id in old(roles)
              then old(roles)[id := Row(old(roles)[id].data, true, clock)]
              else old(roles)
    {
      clock := clock + 1;
      if id in roles {
        roles := roles[id := roles[id].(deleted := true, updatedAt := clock)];
      }
    }

    method AssignRole(role: Id, user: Id) returns (outcome: Outcome)
      modifies this
      ensures var s := OnRoleMembers(RoleMemberStatement.AssignRole(role, user));
              outcome == Check(old(State()), s) && State() == Execute(old(State()), s)
      ensures State() == old(State()).(clock := old(clock) + 1, roleMembers := roleMembers)
      ensures outcome == if role in old(roles) && user in old(users) then Applied
                         else ForeignKeyViolation
      ensures outcome != Applied ==> roleMembers == old(roleMembers)
      ensures outcome == Applied ==>
                roleMembers == old(roleMembers)[(role, user) := Row(Link, false, clock)]
    {
      clock := clock + 1;
      if role !in roles || user !in users {
        return ForeignKeyViolation;
      }
      roleMembers := roleMembers[(role, user) := Row(Link, false, clock)];
      return Applied;
    }

    method RemoveRole(role: Id, user: Id)
      modifies this
      ensures State() == Execute(old(State()), OnRoleMembers(RoleMemberStatement.RemoveRole(role, user)))
      ensures State() == old(State()).(clock := old(clock) + 1, roleMembers := roleMembers)
      ensures roleMembers == if (role, user) in old(roleMembers)
              then old(roleMembers)[(role, user) := Row(old(roleMembers)[(role, user)].data, true, clock)]
              else old(roleMembers)
    {
      clock := clock + 1;
      var key := (role, user);
      if key in roleMembers {
        roleMembers := roleMembers[key := roleMembers[key].(deleted := true, updatedAt := clock)];
      }
    }

    // ---- channels.sql.go ----

    method CreateChannel(id: Id, guild: Option<Id>, name: string, kind: int, topic: string, position: int,
                         parent: Option<Id>)
      returns (outcome: Outcome)
      modifies this
      ensures var s := OnChannels(ChannelStatement.CreateChannel(id, guild, name, kind, topic, position, parent));
              outcome == Check(old(State()), s) && State() == Execute(old(State()), s)
      ensures State() == old(State()).(clock := old(clock) + 1, channels := channels)
      ensures outcome == if id in old(channels) then UniqueViolation
                         else if (guild.Some? ==> guild.value in old(guilds)) &&
                                 (parent.Some? ==> parent.value in old(channels))
                              then Applied
                         else ForeignKeyViolation
      ensures outcome != Applied ==> channels == old(channels)
      ensures outcome == Applied ==>
                channels == old(channels)[id := Row(
                  Channel(guild := guild, name := name, kind := kind, topic := topic, position := position,
                          parent := parent, createdAt := clock), false, clock)]
    {
      clock := clock + 1;
      if id in channels {
        return UniqueViolation;
      }
      if (guild.Some? && guild.value !in guilds) || (parent.Some? && parent.value !in channels) {
        return ForeignKeyViolation;
      }
      channels := channels[id := Row(Channel(guild, name, kind, topic, position, parent, clock), false, clock)];
      return Applied;
    }

    method CreateDMChannel(id: Id, name: string, kind: int) returns (outcome: Outcome)
      modifies this
      ensures var s := OnChannels(ChannelStatement.CreateDMChannel(id, name, kind));
              outcome == Check(old(State()), s) && State() == Execute(old(State()), s)
      ensures State() == old(State()).(clock := old(clock) + 1, channels := channels)
      ensures outcome == if id in old(channels) then UniqueViolation
                         else Applied
      ensures outcome != Applied ==> channels == old(channels)
      ensures outcome == Applied ==>
                channels == old(channels)[id := Row(
                  Channel(guild := None, name := name, kind := kind, topic := "", position := 0, parent := None,
                          createdAt := clock), false, clock)]
    {
      clock := clock + 1;
      if id in channels {
        return UniqueViolation;
      }
      channels := channels[id := Row(Channel(None, name, kind, "", 0, None, clock), false, clock)];
      return Applied;
    }

    method UpdateChannel(id: Id, name: Option<string>, topic: Option<string>, position: Option<int>,
                         parent: Option<Id>)
      returns (outcome: Outcome)
      modifies this
      ensures var s := OnChannels(ChannelStatement.UpdateChannel(id, name, topic, position, parent));
              outcome == Check(old(State()), s) && State() == Execute(old(State()), s)
      ensures State() == old(State()).(clock := old(clock) + 1, channels := channels)
      ensures outcome == if id !in old(channels) then NoRows
                         else if parent.Some? ==> parent.value in old(channels) then Applied
                         else ForeignKeyViolation
      ensures outcome != Applied ==> channels == old(channels)
      ensures outcome == Applied ==>
                var was := old(channels)[id];
                channels == old(channels)[id := Row(
                  Channel(guild := was.data.guild, name := if name.Some? then name.value else was.data.name,
                          kind := was.data.kind, topic := if topic.Some? then topic.value else was.data.topic,
                          position := if position.Some? then position.value else was.data.position,
                          parent := if parent.Some? then Some(parent.value) else was.data.parent,
                          createdAt := was.data.createdAt), was.deleted, was.updatedAt)]
    {
      clock := clock + 1;
      if id !in channels {
        return NoRows;
      }
      if parent.Some? && parent.value !in channels {
        return ForeignKeyViolation;
      }
      var channel := channels[id].data;
      channel := channel.(name := Coalesce(name, channel.name));
      channel := channel.(topic := Coalesce(topic, channel.topic));
      channel := channel.(position := Coalesce(position, channel.position));
      if parent.Some? {
        channel := channel.(parent := parent);
      }
      channels := channels[id := channels[id].(data := channel)];
      return Applied;
    }

    method DeleteChannel(id: Id)
      modifies this
      ensures State() == Execute(old(State()), OnChannels(ChannelStatement.DeleteChannel(id)))
      ensures State() == old(State()).(clock := old(clock) + 1, channels := channels)
      ensures channels == if id in old(channels)
              then old(channels)[id := Row(old(channels)[id].data, true, clock)]
              else old(channels)
    {
      clock := clock + 1;
      if id in channels {
        channels := channels[id := channels[id].(deleted := true, updatedAt := clock)];
      }
    }

    method AddDMChannelMember(channel: Id, user: Id) returns (outcome: Outcome)
      modifies this
      ensures var s := OnDmMembers(DmMemberStatement.AddDMChannelMember(channel, user));
              outcome == Check(old(State()), s) && State() == Execute(old(State()), s)
      ensures State() == old(State()).(clock := old(clock) + 1, dmMembers := dmMembers)
      ensures outcome == if channel in old(channels) && user in old(users) then Applied
                         else ForeignKeyViolation
      ensures outcome != Applied ==> dmMembers == old(dmMembers)
      ensures outcome == Applied ==>
                dmMembers == old(dmMembers)[(channel, user) := Row(Link, false, clock)]
    {
      clock := clock + 1;
      if channel !in channels || user !in users {
        return ForeignKeyViolation;
      }
      dmMembers := dmMembers[(channel, user) := Row(Link, false, clock)];
      return Applied;
    }

    method RemoveDMChannelMember(channel: Id, user: Id)
      modifies this
      ensures State() == Execute(old(State()), OnDmMembers(DmMemberStatement.RemoveDMChannelMember(channel, user)))
      ensures State() == old(State()).(clock := old(clock) + 1, dmMembers := dmMembers)
      ensures dmMembers == if (channel, user) in old(dmMembers)
              then old(dmMembers)[(channel, user) := Row(old(dmMembers)[(channel, user)].data, true, clock)]
              else old(dmMembers)
    {
      clock := clock + 1;
      var key := (channel, user);
      if key in dmMembers {
        dmMembers := dmMembers[key := dmMembers[key].(deleted := true, updatedAt := clock)];
      }
    }

    // :one, so any of the rows that match
    method GetFriendship(user: Id, friend: Id) returns (row: Option<((Id, Id), Row<Friendship>)>)
      ensures row == None <==>
                !((user, friend) in friendships && !friendships[(user, friend)].deleted) &&
                !((friend, user) in friendships && !friendships[(friend, user)].deleted)
      ensures row.Some? ==>
                var key := row.value.0;
                (key == (user, friend) || key == (friend, user)) &&
                key in friendships && friendships[key] == row.value.1 && !row.value.1.deleted
    {
      if (user, friend) in friendships && !friendships[(user, friend)].deleted {
        return Some(((user, friend), friendships[(user, friend)]));
      }
      if (friend, user) in friendships && !friendships[(friend, user)].deleted {
        return Some(((friend, user), friendships[(friend, user)]));
      }
      return None;
    }

    method ListPendingIncoming(viewer: Id) returns (items: seq<((Id, Id), Row<Friendship>)>)
      ensures RowsOnce(items, friendships)
      ensures forall key :: Lists(items, key) <==>
                && key in friendships && key.1 == viewer && key.0 in users
                && friendships[key].data.status == "pending" && !friendships[key].deleted
      ensures forall user :: user in PendingIncoming(State(), viewer) <==> Lists(items, (user, viewer))
    {
      items := CollectWhere(friendships, set key | key in friendships && key.1 == viewer && key.0 in users &&
                                                  friendships[key].data.status == "pending" &&
                                                  !friendships[key].deleted);
    }

    method ListPendingOutgoing(viewer: Id) returns (items: seq<((Id, Id), Row<Friendship>)>)
      ensures RowsOnce(items, friendships)
      ensures forall key :: Lists(items, key) <==>
                && key in friendships && key.0 == viewer && key.1 in users
                && friendships[key].data.status == "pending" && !friendships[key].deleted
      ensures forall user :: user in PendingOutgoing(State(), viewer) <==> Lists(items, (viewer, user))
    {
      items := CollectWhere(friendships, set key | key in friendships && key.0 == viewer && key.1 in users &&
                                                  friendships[key].data.status == "pending" &&
                                                  !friendships[key].deleted);
    }

    // ---- sync.sql.go ----

    method SyncUsers(viewer: Id, since: Time) returns (items: seq<(Id, Row<User>)>)
      ensures Enumerates(items, Delta(users, UserScope(State(), viewer), since))
      ensures RowsOnce(items, users)
      ensures forall user :: Lists(items, user) <==>
                && user in users && users[user].updatedAt > since
                && (|| user == viewer
                    || ((viewer, user) in friendships && !friendships[(viewer, user)].deleted)
                    || ((user, viewer) in friendships && !friendships[(user, viewer)].deleted)
                    || exists guild: Id :: (guild, user) in guildMembers && (guild, viewer) in guildMembers &&
                                           !guildMembers[(guild, viewer)].deleted)
    {
      items := CollectRows(users, UserScope(State(), viewer), since);
      DeltaIsListed(items, users, UserScope(State(), viewer), since);
      forall user: Id ensures SharesGuild(State(), viewer, user) <==>
                            exists guild: Id :: (guild, user) in guildMembers && InGuild(State(), viewer, guild)
      {
        SharesGuildIff(State(), viewer, user);
      }
    }

    method SyncGuilds(viewer: Id, since: Time) returns (items: seq<(Id, Row<Guild>)>)
      ensures Enumerates(items, Delta(guilds, GuildScope(State(), viewer), since))
      ensures RowsOnce(items, guilds)
      ensures forall id :: Lists(items, id) <==>
                && id in guilds && guilds[id].updatedAt > since
                && (id, viewer) in guildMembers && !guildMembers[(id, viewer)].deleted
    {
      items := CollectRows(guilds, GuildScope(State(), viewer), since);
      DeltaIsListed(items, guilds, GuildScope(State(), viewer), since);
    }

    method SyncChannels(viewer: Id, since: Time) returns (items: seq<(Id, Row<Channel>)>)
      ensures Enumerates(items, Delta(channels, ChannelScope(State(), viewer), since))
      ensures RowsOnce(items, channels)
      ensures forall id :: Lists(items, id) <==>
                && id in channels && channels[id].updatedAt > since
                && (|| (channels[id].data.guild.Some? &&
                        (channels[id].data.guild.value, viewer) in guildMembers &&
                        !guildMembers[(channels[id].data.guild.value, viewer)].deleted)
                    || ((id, viewer) in dmMembers && !dmMembers[(id, viewer)].deleted))
    {
      items := CollectRows(channels, ChannelScope(State(), viewer), since);
      DeltaIsListed(items, channels, ChannelScope(State(), viewer), since);
    }

    method SyncRoles(viewer: Id, since: Time) returns (items: seq<(Id, Row<Role>)>)
      ensures Enumerates(items, Delta(roles, RoleScope(State(), viewer), since))
      ensures RowsOnce(items, roles)
      ensures forall id :: Lists(items, id) <==>
                && id in roles && roles[id].updatedAt > since
                && (roles[id].data.guild, viewer) in guildMembers
                && !guildMembers[(roles[id].data.guild, viewer)].deleted
    {
      items := CollectRows(roles, RoleScope(State(), viewer), since);
      DeltaIsListed(items, roles, RoleScope(State(), viewer), since);
    }

    method SyncGuildMembers(viewer: Id, since: Time) returns (items: seq<((Id, Id), Row<GuildMember>)>)
      ensures Enumerates(items, Delta(guildMembers, GuildMemberScope(State(), viewer), since))
      ensures RowsOnce(items, guildMembers)
      ensures forall key :: Lists(items, key) <==>
                && key in guildMembers && guildMembers[key].updatedAt > since
                && (key.0, viewer) in guildMembers && !guildMembers[(key.0, viewer)].deleted
    {
      items := CollectRows(guildMembers, GuildMemberScope(State(), viewer), since);
      DeltaIsListed(items, guildMembers, GuildMemberScope(State(), viewer), since);
    }

    method SyncDmMembers(viewer: Id, since: Time) returns (items: seq<((Id, Id), Row<Link>)>)
      ensures Enumerates(items, Delta(dmMembers, DmMemberScope(State(), viewer), since))
      ensures RowsOnce(items, dmMembers)
      ensures forall key :: Lists(items, key) <==>
                && key in dmMembers && dmMembers[key].updatedAt > since
                && (key.0, viewer) in dmMembers && !dmMembers[(key.0, viewer)].deleted
    {
      items := CollectRows(dmMembers, DmMemberScope(State(), viewer), since);
      DeltaIsListed(items, dmMembers, DmMemberScope(State(), viewer), since);
    }
  }
}
