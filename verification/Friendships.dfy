/** The friendship queries: directed rows that are read, joined and deleted in both directions. */
module Friendships {
  import opened Schema
  import opened Statements
  import opened Integrity
  import opened Sequences

  // ---- bags of rows ----

  // The rows a query visits: every key once, in an order the database chooses
  predicate IsScan<K(==)>(scan: seq<K>, keys: set<K>) {
    && (forall i, j | 0 <= i < j < |scan| :: scan[i] != scan[j])
    && (forall k | k in scan :: k in keys)
    && (forall k | k in keys :: k in scan)
  }

  // ---- FROM users u LEFT JOIN dm_channel_members d ON u.id = d.user_id ----

  function DmMatches(dms: seq<(Id, Id)>, user: Id): seq<Id> {
    if dms == [] then []
    else (if dms[0].1 == user then [dms[0].0] else []) + DmMatches(dms[1..], user)
  }

  datatype UserDm = UserDm(user: Id, channel: Option<Id>)

  // One user beside its matches, or beside NULL when there are none
  function BesideDms(user: Id, channels: seq<Id>): seq<UserDm> {
    if channels == [] then [UserDm(user, None)]
    else seq(|channels|, i requires 0 <= i < |channels| => UserDm(user, Some(channels[i])))
  }

  function WithDms(users: seq<Id>, dms: seq<(Id, Id)>): seq<UserDm> {
    if users == [] then []
    else BesideDms(users[0], DmMatches(dms, users[0])) + WithDms(users[1..], dms)
  }

  // ---- ... LEFT JOIN friendships f ON (f.friend_id = u.id AND f.user_id = $1) OR (the other way round) ----

  predicate Between(key: (Id, Id), a: Id, b: Id) {
    key == (a, b) || key == (b, a)
  }

  function FriendMatches(friends: seq<(Id, Id)>, viewer: Id, user: Id): seq<(Id, Id)> {
    if friends == [] then []
    else (if Between(friends[0], viewer, user) then [friends[0]] else []) + FriendMatches(friends[1..], viewer, user)
  }

  datatype FriendRow = FriendRow(u: UserDm, friendship: Option<(Id, Id)>)

  function BesideFriends(row: UserDm, matches: seq<(Id, Id)>): seq<FriendRow> {
    if matches == [] then [FriendRow(row, None)]
    else seq(|matches|, i requires 0 <= i < |matches| => FriendRow(row, Some(matches[i])))
  }

  function WithFriends(rows: seq<UserDm>, friends: seq<(Id, Id)>, viewer: Id): seq<FriendRow> {
    if rows == [] then []
    else BesideFriends(rows[0], FriendMatches(friends, viewer, rows[0].user)) +
         WithFriends(rows[1..], friends, viewer)
  }

  // f.status = status AND f.deleted = FALSE; a comparison with NULL is not true
  predicate HasStatus(t: Table<(Id, Id), Friendship>, key: Option<(Id, Id)>, status: string) {
    key.Some? && Live(t, key.value) && t[key.value].data.status == status
  }

  function WhereAccepted(t: Table<(Id, Id), Friendship>, rows: seq<FriendRow>): seq<FriendRow> {
    if rows == [] then []
    else (if HasStatus(t, rows[0].friendship, "accepted") then [rows[0]] else []) + WhereAccepted(t, rows[1..])
  }

  function ListFriends(db: Db, viewer: Id, users: seq<Id>, dms: seq<(Id, Id)>, friends: seq<(Id, Id)>): seq<FriendRow> {
    WhereAccepted(db.friendships, WithFriends(WithDms(users, dms), friends, viewer))
  }

  // How many result rows carry a user
  function Occurrences(rows: seq<FriendRow>, user: Id): nat {
    if rows == [] then 0 else (if rows[0].u.user == user then 1 else 0) + Occurrences(rows[1..], user)
  }

  function DmOccurrences(rows: seq<UserDm>, user: Id): nat {
    if rows == [] then 0 else (if rows[0].user == user then 1 else 0) + DmOccurrences(rows[1..], user)
  }

  // The friendship rows that make a user a friend of the viewer
  function AcceptedBetween(t: Table<(Id, Id), Friendship>, viewer: Id, user: Id): set<(Id, Id)> {
    set key | key in t && Between(key, viewer, user) && HasStatus(t, Some(key), "accepted")
  }

  function DmRowsOf(t: Table<(Id, Id), Link>, user: Id): set<(Id, Id)> {
    set key | key in t && key.1 == user
  }

  // ---- counting ----

  lemma {:induction false} OccurrencesConcat(a: seq<FriendRow>, b: seq<FriendRow>, user: Id)
    ensures Occurrences(a + b, user) == Occurrences(a, user) + Occurrences(b, user)
  {
    if a == [] {
      assert a + b == b;
    } else {
      OccurrencesConcat(a[1..], b, user);
      assert (a + b)[1..] == a[1..] + b;
    }
  }

  lemma {:induction false} WhereConcat(t: Table<(Id, Id), Friendship>, a: seq<FriendRow>, b: seq<FriendRow>)
    ensures WhereAccepted(t, a + b) == WhereAccepted(t, a) + WhereAccepted(t, b)
  {
    if a == [] {
      assert a + b == b;
    } else {
      TailOfConcat(a, b);
      WhereConcat(t, a[1..], b);
      Associative(if HasStatus(t, a[0].friendship, "accepted") then [a[0]] else [],
                  WhereAccepted(t, a[1..]), WhereAccepted(t, b));
    }
  }

  lemma {:induction false} DmOccurrencesConcat(a: seq<UserDm>, b: seq<UserDm>, user: Id)
    ensures DmOccurrences(a + b, user) == DmOccurrences(a, user) + DmOccurrences(b, user)
  {
    if a == [] {
      assert a + b == b;
    } else {
      DmOccurrencesConcat(a[1..], b, user);
      assert (a + b)[1..] == a[1..] + b;
    }
  }

  lemma {:induction false} DmOccurrencesOfOneUser(rows: seq<UserDm>, owner: Id, user: Id)
    requires forall i | 0 <= i < |rows| :: rows[i].user == owner
    ensures DmOccurrences(rows, user) == if owner == user then |rows| else 0
  {
    if rows == [] {
    } else {
      DmOccurrencesOfOneUser(rows[1..], owner, user);
    }
  }

  // Each scanned user comes once for every DM row it has, or once with NULL.
  lemma {:induction false} WithDmsOccurrences(users: seq<Id>, dms: seq<(Id, Id)>, user: Id)
    requires forall i, j | 0 <= i < j < |users| :: users[i] != users[j]
    ensures DmOccurrences(WithDms(users, dms), user) ==
              if user in users then AtLeastOne(|DmMatches(dms, user)|) else 0
  {
    if users == [] {
    } else {
      var first := BesideDms(users[0], DmMatches(dms, users[0]));
      DmOccurrencesOfOneUser(first, users[0], user);
      WithDmsOccurrences(users[1..], dms, user);
      DmOccurrencesConcat(first, WithDms(users[1..], dms), user);
    }
  }

  // Among some matched friendship rows, those the WHERE clause keeps
  function Kept(t: Table<(Id, Id), Friendship>, matches: seq<(Id, Id)>): nat {
    if matches == [] then 0
    else (if HasStatus(t, Some(matches[0]), "accepted") then 1 else 0) + Kept(t, matches[1..])
  }

  // The NULL row of the second LEFT JOIN never passes the WHERE clause: the join is an inner join.
  lemma {:induction false} KeptBesideOneRow(
    t: Table<(Id, Id), Friendship>, row: UserDm, matches: seq<(Id, Id)>, user: Id)
    ensures Occurrences(WhereAccepted(t, BesideFriends(row, matches)), user) ==
              if row.user == user then Kept(t, matches) else 0
  {
    if |matches| > 1 {
      KeptBesideOneRow(t, row, matches[1..], user);
      var first, rest := [FriendRow(row, Some(matches[0]))], BesideFriends(row, matches[1..]);
      assert BesideFriends(row, matches) == first + rest;
      WhereConcat(t, first, rest);
      OccurrencesConcat(WhereAccepted(t, first), WhereAccepted(t, rest), user);
    } else if |matches| == 1 {
      assert BesideFriends(row, matches) == [FriendRow(row, Some(matches[0]))];
      assert BesideFriends(row, matches)[1..] == [];
      assert Kept(t, matches[1..]) == 0;
    }
  }

  lemma {:induction false} WithFriendsOccurrences(
    t: Table<(Id, Id), Friendship>, rows: seq<UserDm>, friends: seq<(Id, Id)>, viewer: Id, user: Id)
    ensures Occurrences(WhereAccepted(t, WithFriends(rows, friends, viewer)), user) ==
              DmOccurrences(rows, user) * Kept(t, FriendMatches(friends, viewer, user))
  {
    if rows == [] {
    } else {
      var first := BesideFriends(rows[0], FriendMatches(friends, viewer, rows[0].user));
      var rest := WithFriends(rows[1..], friends, viewer);
      var kept := Kept(t, FriendMatches(friends, viewer, user));
      WithFriendsOccurrences(t, rows[1..], friends, viewer, user);
      KeptBesideOneRow(t, rows[0], FriendMatches(friends, viewer, rows[0].user), user);
      WhereConcat(t, first, rest);
      OccurrencesConcat(WhereAccepted(t, first), WhereAccepted(t, rest), user);
      if rows[0].user == user {
        assert (1 + DmOccurrences(rows[1..], user)) * kept == kept + DmOccurrences(rows[1..], user) * kept;
      }
    }
  }

  // ---- from scans to the tables ----

  function AcceptedAmong(t: Table<(Id, Id), Friendship>, keys: set<(Id, Id)>, viewer: Id, user: Id): set<(Id, Id)> {
    set key | key in keys && Between(key, viewer, user) && HasStatus(t, Some(key), "accepted")
  }

  lemma AcceptedOneMore(
    t: Table<(Id, Id), Friendship>, first: (Id, Id), rest: set<(Id, Id)>, viewer: Id, user: Id)
    requires first !in rest
    ensures |AcceptedAmong(t, rest + {first}, viewer, user)| ==
              |AcceptedAmong(t, rest, viewer, user)| +
              (if Between(first, viewer, user) && HasStatus(t, Some(first), "accepted") then 1 else 0)
  {
    var others := AcceptedAmong(t, rest, viewer, user);
    if Between(first, viewer, user) && HasStatus(t, Some(first), "accepted") {
      assert AcceptedAmong(t, rest + {first}, viewer, user) == others + {first};
    } else {
      assert AcceptedAmong(t, rest + {first}, viewer, user) == others;
    }
  }

  lemma KeptOneMore(t: Table<(Id, Id), Friendship>, friends: seq<(Id, Id)>, viewer: Id, user: Id)
    requires friends != []
    ensures Kept(t, FriendMatches(friends, viewer, user)) ==
              Kept(t, FriendMatches(friends[1..], viewer, user)) +
              (if Between(friends[0], viewer, user) && HasStatus(t, Some(friends[0]), "accepted") then 1 else 0)
  {
    if Between(friends[0], viewer, user) {
      assert FriendMatches(friends, viewer, user)[1..] == FriendMatches(friends[1..], viewer, user);
    } else {
      assert FriendMatches(friends, viewer, user) == FriendMatches(friends[1..], viewer, user);
    }
  }

  lemma {:induction false} KeptCountsRows(
    t: Table<(Id, Id), Friendship>, friends: seq<(Id, Id)>, keys: set<(Id, Id)>, viewer: Id, user: Id)
    requires IsScan(friends, keys)
    ensures Kept(t, FriendMatches(friends, viewer, user)) == |AcceptedAmong(t, keys, viewer, user)|
  {
    if friends == [] {
      assert AcceptedAmong(t, keys, viewer, user) == {};
    } else {
      var rest := keys - {friends[0]};
      KeptCountsRows(t, friends[1..], rest, viewer, user);
      KeptOneMore(t, friends, viewer, user);
      AcceptedOneMore(t, friends[0], rest, viewer, user);
      assert rest + {friends[0]} == keys;
    }
  }

  lemma {:induction false} DmMatchesCountsRows(dms: seq<(Id, Id)>, keys: set<(Id, Id)>, user: Id)
    requires IsScan(dms, keys)
    ensures |DmMatches(dms, user)| == |set key | key in keys && key.1 == user|
  {
    var matching := set key | key in keys && key.1 == user;
    if dms != [] {
      var first, rest := dms[0], keys - {dms[0]};
      DmMatchesCountsRows(dms[1..], rest, user);
      var others := set key | key in rest && key.1 == user;
      if first.1 == user {
        assert matching == others + {first};
      } else {
        assert matching == others;
      }
    } else {
      assert matching == {};
    }
  }

  lemma KeptAreAccepted(t: Table<(Id, Id), Friendship>, friends: seq<(Id, Id)>, viewer: Id, user: Id)
    requires IsScan(friends, t.Keys)
    ensures Kept(t, FriendMatches(friends, viewer, user)) == |AcceptedBetween(t, viewer, user)|
  {
    KeptCountsRows(t, friends, t.Keys, viewer, user);
    assert AcceptedBetween(t, viewer, user) == AcceptedAmong(t, t.Keys, viewer, user);
  }

  lemma MatchesAreDmRows(t: Table<(Id, Id), Link>, dms: seq<(Id, Id)>, user: Id)
    requires IsScan(dms, t.Keys)
    ensures |DmMatches(dms, user)| == |DmRowsOf(t, user)|
  {
    DmMatchesCountsRows(dms, t.Keys, user);
    assert DmRowsOf(t, user) == set key | key in t.Keys && key.1 == user;
  }

  lemma UserRows(db: Db, users: seq<Id>, dms: seq<(Id, Id)>, user: Id)
    requires IsScan(users, db.users.Keys) && IsScan(dms, db.dmMembers.Keys)
    ensures DmOccurrences(WithDms(users, dms), user) ==
              if user in db.users then AtLeastOne(|DmRowsOf(db.dmMembers, user)|) else 0
  {
    WithDmsOccurrences(users, dms, user);
    MatchesAreDmRows(db.dmMembers, dms, user);
  }

  lemma Times(rows: nat, kept: nat, each: nat, present: bool)
    requires rows == if present then each else 0
    ensures rows * kept == if present then each * kept else 0
  {
  }

  // ListFriends as a bag: a user comes once for every accepted row that links it to the viewer, times its DM
  // rows (deleted ones too), at least once; whatever the order of the scans.
  lemma ListFriendsBag(db: Db, viewer: Id, users: seq<Id>, dms: seq<(Id, Id)>, friends: seq<(Id, Id)>, user: Id)
    requires IsScan(users, db.users.Keys) && IsScan(dms, db.dmMembers.Keys)
    requires IsScan(friends, db.friendships.Keys)
    ensures Occurrences(ListFriends(db, viewer, users, dms, friends), user) ==
              if user in db.users
              then AtLeastOne(|DmRowsOf(db.dmMembers, user)|) * |AcceptedBetween(db.friendships, viewer, user)|
              else 0
  {
    var rows := DmOccurrences(WithDms(users, dms), user);
    var kept := Kept(db.friendships, FriendMatches(friends, viewer, user));
    WithFriendsOccurrences(db.friendships, WithDms(users, dms), friends, viewer, user);
    UserRows(db, users, dms, user);
    KeptAreAccepted(db.friendships, friends, viewer, user);
    Times(rows, kept, AtLeastOne(|DmRowsOf(db.dmMembers, user)|), user in db.users);
  }

  // The same in terms of the tables: accepted, live rows in either direction, and DM rows deleted or not
  lemma ListFriendsRows(db: Db, viewer: Id, users: seq<Id>, dms: seq<(Id, Id)>, friends: seq<(Id, Id)>, user: Id)
    requires IsScan(users, db.users.Keys) && IsScan(dms, db.dmMembers.Keys)
    requires IsScan(friends, db.friendships.Keys)
    ensures var accepted := set key | key in db.friendships && (key == (viewer, user) || key == (user, viewer)) &&
                                      !db.friendships[key].deleted && db.friendships[key].data.status == "accepted";
            var dmRows := set key | key in db.dmMembers && key.1 == user;
            Occurrences(ListFriends(db, viewer, users, dms, friends), user) ==
              if user !in db.users then 0 else if dmRows == {} then |accepted| else |dmRows| * |accepted|
  {
    ListFriendsBag(db, viewer, users, dms, friends, user);
    var accepted := set key | key in db.friendships && (key == (viewer, user) || key == (user, viewer)) &&
                              !db.friendships[key].deleted && db.friendships[key].data.status == "accepted";
    assert AcceptedBetween(db.friendships, viewer, user) == accepted;
    var dmRows := set key | key in db.dmMembers && key.1 == user;
    assert DmRowsOf(db.dmMembers, user) == dmRows;
    if dmRows != {} {
      var key :| key in dmRows;
      assert |dmRows| > 0;
    }
  }

  // ---- which rows ListFriends returns ----

  lemma {:induction false} DmMatchesMembers(dms: seq<(Id, Id)>, user: Id)
    ensures forall channel :: channel in DmMatches(dms, user) <==> (channel, user) in dms
  {
    if dms == [] {
    } else {
      DmMatchesMembers(dms[1..], user);
      assert dms == [dms[0]] + dms[1..];
    }
  }

  // A user beside one of its DM rows, or beside NULL when it has none
  predicate BesideDm(row: UserDm, dms: seq<(Id, Id)>) {
    match row.channel
    case Some(channel) => (channel, row.user) in dms
    case None => forall dm | dm in dms :: dm.1 != row.user
  }

  lemma BesideDmsMembers(user: Id, dms: seq<(Id, Id)>)
    ensures forall row :: row in BesideDms(user, DmMatches(dms, user)) <==> row.user == user && BesideDm(row, dms)
  {
    var channels := DmMatches(dms, user);
    DmMatchesMembers(dms, user);
    forall row
      ensures row in BesideDms(user, channels) <==> row.user == user && BesideDm(row, dms)
    {
      if row.user == user && BesideDm(row, dms) {
        match row.channel
        case None =>
          assert forall channel :: channel !in channels;
        case Some(channel) =>
          var i :| 0 <= i < |channels| && channels[i] == channel;
          assert BesideDms(user, channels)[i] == row;
      }
    }
  }

  lemma {:induction false} WithDmsMembers(users: seq<Id>, dms: seq<(Id, Id)>)
    ensures forall row :: row in WithDms(users, dms) <==> row.user in users && BesideDm(row, dms)
  {
    if users == [] {
    } else {
      WithDmsMembers(users[1..], dms);
      BesideDmsMembers(users[0], dms);
      assert forall user :: user in users <==> user == users[0] || user in users[1..];
    }
  }

  lemma {:induction false} FriendMatchesMembers(friends: seq<(Id, Id)>, viewer: Id, user: Id)
    ensures forall key :: key in FriendMatches(friends, viewer, user) <==> key in friends && Between(key, viewer, user)
  {
    if friends == [] {
    } else {
      FriendMatchesMembers(friends[1..], viewer, user);
      assert forall key :: key in friends <==> key == friends[0] || key in friends[1..];
    }
  }

  lemma AcceptedBeside(t: Table<(Id, Id), Friendship>, row: UserDm, matches: seq<(Id, Id)>)
    ensures forall r :: r in WhereAccepted(t, BesideFriends(row, matches)) <==>
              && r.u == row && r.friendship.Some? && r.friendship.value in matches
              && HasStatus(t, r.friendship, "accepted")
  {
    var rows := BesideFriends(row, matches);
    WhereMembers(t, rows);
    forall r
      ensures r in rows && r.friendship.Some? <==> r.u == row && r.friendship.Some? && r.friendship.value in matches
    {
      if r.u == row && r.friendship.Some? && r.friendship.value in matches {
        var i :| 0 <= i < |matches| && matches[i] == r.friendship.value;
        assert rows[i] == r;
      }
    }
  }

  lemma {:induction false} WhereMembers(t: Table<(Id, Id), Friendship>, rows: seq<FriendRow>)
    ensures forall r :: r in WhereAccepted(t, rows) <==> r in rows && HasStatus(t, r.friendship, "accepted")
  {
    if rows == [] {
    } else {
      WhereMembers(t, rows[1..]);
      assert forall r :: r in rows <==> r == rows[0] || r in rows[1..];
    }
  }

  lemma {:induction false} WithFriendsMembers(
    t: Table<(Id, Id), Friendship>, rows: seq<UserDm>, friends: seq<(Id, Id)>, viewer: Id)
    ensures forall r :: r in WhereAccepted(t, WithFriends(rows, friends, viewer)) <==>
              && r.u in rows && r.friendship.Some? && r.friendship.value in friends
              && Between(r.friendship.value, viewer, r.u.user) && HasStatus(t, r.friendship, "accepted")
  {
    if rows == [] {
    } else {
      var matches := FriendMatches(friends, viewer, rows[0].user);
      WithFriendsMembers(t, rows[1..], friends, viewer);
      FriendMatchesMembers(friends, viewer, rows[0].user);
      AcceptedBeside(t, rows[0], matches);
      WhereConcat(t, BesideFriends(rows[0], matches), WithFriends(rows[1..], friends, viewer));
      assert forall u :: u in rows <==> u == rows[0] || u in rows[1..];
    }
  }

  // A row comes exactly if its user exists, its friendship is live, accepted and between the two, and its channel is a
  // DM row of the user, or NULL when the user has none.
  lemma ListFriendsHasRowIff(db: Db, viewer: Id, users: seq<Id>, dms: seq<(Id, Id)>, friends: seq<(Id, Id)>,
                             user: Id, channel: Option<Id>, key: (Id, Id))
    requires IsScan(users, db.users.Keys) && IsScan(dms, db.dmMembers.Keys)
    requires IsScan(friends, db.friendships.Keys)
    ensures FriendRow(UserDm(user, channel), Some(key)) in ListFriends(db, viewer, users, dms, friends) <==>
              && user in db.users
              && (key == (viewer, user) || key == (user, viewer))
              && key in db.friendships && !db.friendships[key].deleted
              && db.friendships[key].data.status == "accepted"
              && (match channel
                  case Some(c) => (c, user) in db.dmMembers
                  case None => forall dm | dm in db.dmMembers :: dm.1 != user)
    ensures FriendRow(UserDm(user, channel), None) !in ListFriends(db, viewer, users, dms, friends)
  {
    WithDmsMembers(users, dms);
    WithFriendsMembers(db.friendships, WithDms(users, dms), friends, viewer);
    assert UserDm(user, channel) in WithDms(users, dms) <==> user in users && BesideDm(UserDm(user, channel), dms);
  }

  // ---- SyncFriendships: every friendship of the viewer, beside DM rows of friend_id and the other party ----

  datatype SyncRow = SyncRow(friendship: (Id, Id), channel: Option<Id>, user: Option<Id>)

  function OtherParty(key: (Id, Id), viewer: Id): Id {
    if key.0 == viewer then key.1 else key.0
  }

  function UserMatches(users: seq<Id>, id: Id): seq<Id> {
    if users == [] then [] else (if users[0] == id then [users[0]] else []) + UserMatches(users[1..], id)
  }

  function BesideUsers(key: (Id, Id), channel: Option<Id>, matches: seq<Id>): seq<SyncRow> {
    if matches == [] then [SyncRow(key, channel, None)]
    else seq(|matches|, i requires 0 <= i < |matches| => SyncRow(key, channel, Some(matches[i])))
  }

  function WithUsers(key: (Id, Id), viewer: Id, rows: seq<UserDm>, users: seq<Id>): seq<SyncRow> {
    if rows == [] then []
    else BesideUsers(key, rows[0].channel, UserMatches(users, OtherParty(key, viewer))) +
         WithUsers(key, viewer, rows[1..], users)
  }

  function SyncFriendships(viewer: Id, friends: seq<(Id, Id)>, dms: seq<(Id, Id)>, users: seq<Id>): seq<SyncRow> {
    if friends == [] then []
    else
      var key := friends[0];
      (if key.0 == viewer || key.1 == viewer
       then WithUsers(key, viewer, BesideDms(key.1, DmMatches(dms, key.1)), users)
       else []) + SyncFriendships(viewer, friends[1..], dms, users)
  }

  function SyncOccurrences(rows: seq<SyncRow>, key: (Id, Id)): nat {
    if rows == [] then 0 else (if rows[0].friendship == key then 1 else 0) + SyncOccurrences(rows[1..], key)
  }

  lemma {:induction false} SyncOccurrencesConcat(a: seq<SyncRow>, b: seq<SyncRow>, key: (Id, Id))
    ensures SyncOccurrences(a + b, key) == SyncOccurrences(a, key) + SyncOccurrences(b, key)
  {
    if a == [] {
      assert a + b == b;
    } else {
      SyncOccurrencesConcat(a[1..], b, key);
      assert (a + b)[1..] == a[1..] + b;
    }
  }

  lemma {:induction false} OneUserMatches(users: seq<Id>, keys: set<Id>, id: Id)
    requires IsScan(users, keys)
    ensures UserMatches(users, id) == if id in keys then [id] else []
  {
    if users == [] {
    } else {
      OneUserMatches(users[1..], keys - {users[0]}, id);
    }
  }

  lemma {:induction false} WithUsersJoinsTheOther(
    key: (Id, Id), viewer: Id, rows: seq<UserDm>, users: seq<Id>, k: (Id, Id))
    requires UserMatches(users, OtherParty(key, viewer)) == [OtherParty(key, viewer)]
    ensures SyncOccurrences(WithUsers(key, viewer, rows, users), k) == if k == key then |rows| else 0
    ensures forall r | r in WithUsers(key, viewer, rows, users) ::
              r.friendship == key && r.user == Some(OtherParty(key, viewer))
  {
    if rows == [] {
    } else {
      var first := BesideUsers(key, rows[0].channel, UserMatches(users, OtherParty(key, viewer)));
      assert first == [SyncRow(key, rows[0].channel, Some(OtherParty(key, viewer)))];
      WithUsersJoinsTheOther(key, viewer, rows[1..], users, k);
      SyncOccurrencesConcat(first, WithUsers(key, viewer, rows[1..], users), k);
    }
  }

  lemma {:induction false} SyncFriendshipsScan(
    db: Db, viewer: Id, friends: seq<(Id, Id)>, dms: seq<(Id, Id)>, users: seq<Id>, key: (Id, Id))
    requires IsScan(users, db.users.Keys)
    requires forall i, j | 0 <= i < j < |friends| :: friends[i] != friends[j]
    requires forall k | k in friends :: k.0 in db.users && k.1 in db.users
    ensures var rows := SyncFriendships(viewer, friends, dms, users);
            && SyncOccurrences(rows, key) ==
                 (if key in friends && (key.0 == viewer || key.1 == viewer)
                  then AtLeastOne(|DmMatches(dms, key.1)|) else 0)
            && forall r | r in rows ::
                 (r.friendship.0 == viewer || r.friendship.1 == viewer) &&
                 r.user == Some(OtherParty(r.friendship, viewer))
  {
    if friends == [] {
    } else {
      var k := friends[0];
      SyncFriendshipsScan(db, viewer, friends[1..], dms, users, key);
      if k.0 == viewer || k.1 == viewer {
        OneUserMatches(users, db.users.Keys, OtherParty(k, viewer));
        var rows := BesideDms(k.1, DmMatches(dms, k.1));
        WithUsersJoinsTheOther(k, viewer, rows, users, key);
        SyncOccurrencesConcat(WithUsers(k, viewer, rows, users),
                              SyncFriendships(viewer, friends[1..], dms, users), key);
      } else {
        assert SyncFriendships(viewer, friends, dms, users) == SyncFriendships(viewer, friends[1..], dms, users);
      }
    }
  }

  // Each friendship of the viewer comes once for every DM row of its friend_id, at least once, and always
  // beside the other party's user row: the reference resolves, so no column of it is NULL.
  lemma SyncFriendshipsBag(
    db: Db, viewer: Id, friends: seq<(Id, Id)>, dms: seq<(Id, Id)>, users: seq<Id>, key: (Id, Id))
    requires PairsResolve(db)
    requires IsScan(users, db.users.Keys) && IsScan(dms, db.dmMembers.Keys)
    requires IsScan(friends, db.friendships.Keys)
    ensures var rows := SyncFriendships(viewer, friends, dms, users);
            && SyncOccurrences(rows, key) ==
                 (if key in db.friendships && (key.0 == viewer || key.1 == viewer)
                  then AtLeastOne(|DmRowsOf(db.dmMembers, key.1)|) else 0)
            && forall r | r in rows :: r.user == Some(OtherParty(r.friendship, viewer))
  {
    SyncFriendshipsScan(db, viewer, friends, dms, users, key);
    MatchesAreDmRows(db.dmMembers, dms, key.1);
  }

  lemma {:induction false} SyncRowsOf(
    key: (Id, Id), viewer: Id, rows: seq<UserDm>, users: seq<Id>)
    requires UserMatches(users, OtherParty(key, viewer)) == [OtherParty(key, viewer)]
    ensures forall r :: r in WithUsers(key, viewer, rows, users) <==>
              && r.friendship == key && r.user == Some(OtherParty(key, viewer))
              && exists row | row in rows :: row.channel == r.channel
  {
    if rows == [] {
    } else {
      var first := BesideUsers(key, rows[0].channel, UserMatches(users, OtherParty(key, viewer)));
      assert first == [SyncRow(key, rows[0].channel, Some(OtherParty(key, viewer)))];
      SyncRowsOf(key, viewer, rows[1..], users);
      assert forall row :: row in rows <==> row == rows[0] || row in rows[1..];
    }
  }

  lemma SyncRowsOfKey(key: (Id, Id), viewer: Id, dms: seq<(Id, Id)>, users: seq<Id>, r: SyncRow)
    requires UserMatches(users, OtherParty(key, viewer)) == [OtherParty(key, viewer)]
    ensures r in WithUsers(key, viewer, BesideDms(key.1, DmMatches(dms, key.1)), users) <==>
              && r.friendship == key && r.user == Some(OtherParty(key, viewer))
              && BesideDm(UserDm(key.1, r.channel), dms)
  {
    var rows := BesideDms(key.1, DmMatches(dms, key.1));
    SyncRowsOf(key, viewer, rows, users);
    BesideDmsMembers(key.1, dms);
    if row :| row in rows && row.channel == r.channel {
      assert row == UserDm(key.1, r.channel);
    }
  }

  lemma {:induction false} SyncFriendshipsMembers(
    viewer: Id, friends: seq<(Id, Id)>, dms: seq<(Id, Id)>, users: seq<Id>, keys: set<Id>, r: SyncRow)
    requires IsScan(users, keys) && forall k | k in friends :: k.0 in keys && k.1 in keys
    ensures r in SyncFriendships(viewer, friends, dms, users) <==>
              && r.friendship in friends && (r.friendship.0 == viewer || r.friendship.1 == viewer)
              && r.user == Some(OtherParty(r.friendship, viewer))
              && BesideDm(UserDm(r.friendship.1, r.channel), dms)
  {
    if friends == [] {
    } else {
      var k := friends[0];
      assert k in friends;
      SyncFriendshipsMembers(viewer, friends[1..], dms, users, keys, r);
      assert r.friendship in friends <==> r.friendship == k || r.friendship in friends[1..];
      if k.0 == viewer || k.1 == viewer {
        OneUserMatches(users, keys, OtherParty(k, viewer));
        SyncRowsOfKey(k, viewer, dms, users, r);
      }
    }
  }

  // A row comes exactly if its friendship is one of the viewer's, deleted or not, its user is the other party and its
  // channel a DM row of friend_id, or NULL when friend_id has none.
  lemma SyncFriendshipsHasRowIff(
    db: Db, viewer: Id, friends: seq<(Id, Id)>, dms: seq<(Id, Id)>, users: seq<Id>, r: SyncRow)
    requires PairsResolve(db)
    requires IsScan(users, db.users.Keys) && IsScan(dms, db.dmMembers.Keys)
    requires IsScan(friends, db.friendships.Keys)
    ensures r in SyncFriendships(viewer, friends, dms, users) <==>
              && r.friendship in db.friendships
              && (|| (r.friendship.0 == viewer && r.user == Some(r.friendship.1))
                  || (r.friendship.0 != viewer && r.friendship.1 == viewer && r.user == Some(r.friendship.0)))
              && (match r.channel
                  case Some(c) => (c, r.friendship.1) in db.dmMembers
                  case None => forall dm | dm in db.dmMembers :: dm.1 != r.friendship.1)
  {
    SyncFriendshipsMembers(viewer, friends, dms, users, db.users.Keys, r);
  }

  // ---- the views of the two parties ----

  // The rows GetFriendship may return
  function FriendshipsBetween(db: Db, a: Id, b: Id): set<(Id, Id)> {
    set key | key in db.friendships && Between(key, a, b) && Live(db.friendships, key)
  }

  function PendingIncoming(db: Db, viewer: Id): set<Id> {
    set u | u in db.users && HasStatus(db.friendships, Some((u, viewer)), "pending")
  }

  function PendingOutgoing(db: Db, viewer: Id): set<Id> {
    set u | u in db.users && HasStatus(db.friendships, Some((viewer, u)), "pending")
  }

  lemma SomeOccurrences(n: nat, rows: set<(Id, Id)>)
    ensures AtLeastOne(n) * |rows| > 0 <==> rows != {}
  {
    if rows != {} {
      var key :| key in rows;
      assert |rows| > 0;
      assert AtLeastOne(n) * |rows| >= 1 * |rows|;
    }
  }

  lemma ListsFriendIff(db: Db, viewer: Id, users: seq<Id>, dms: seq<(Id, Id)>, friends: seq<(Id, Id)>, user: Id)
    requires IsScan(users, db.users.Keys) && IsScan(dms, db.dmMembers.Keys)
    requires IsScan(friends, db.friendships.Keys)
    ensures Occurrences(ListFriends(db, viewer, users, dms, friends), user) > 0 <==>
              user in db.users && AcceptedBetween(db.friendships, viewer, user) != {}
    ensures Occurrences(ListFriends(db, viewer, users, dms, friends), user) > 0 <==>
              user in db.users && exists key | key in db.friendships ::
                (key == (viewer, user) || key == (user, viewer)) && !db.friendships[key].deleted &&
                db.friendships[key].data.status == "accepted"
  {
    ListFriendsBag(db, viewer, users, dms, friends, user);
    SomeOccurrences(|DmRowsOf(db.dmMembers, user)|, AcceptedBetween(db.friendships, viewer, user));
    if key :| key in db.friendships && (key == (viewer, user) || key == (user, viewer)) &&
              !db.friendships[key].deleted && db.friendships[key].data.status == "accepted" {
      assert key in AcceptedBetween(db.friendships, viewer, user);
    }
  }

  lemma AcceptedBetweenUsers(db: Db, a: Id, b: Id)
    requires PairsResolve(db)
    ensures AcceptedBetween(db.friendships, a, b) == AcceptedBetween(db.friendships, b, a)
    ensures AcceptedBetween(db.friendships, a, b) != {} ==> a in db.users && b in db.users
  {
  }

  lemma ViewsAreMutual(db: Db, a: Id, b: Id, users: seq<Id>, dms: seq<(Id, Id)>, friends: seq<(Id, Id)>)
    requires PairsResolve(db)
    requires IsScan(users, db.users.Keys) && IsScan(dms, db.dmMembers.Keys)
    requires IsScan(friends, db.friendships.Keys)
    ensures Occurrences(ListFriends(db, a, users, dms, friends), b) > 0 <==>
            Occurrences(ListFriends(db, b, users, dms, friends), a) > 0
    ensures FriendshipsBetween(db, a, b) == FriendshipsBetween(db, b, a)
    ensures a in PendingIncoming(db, b) <==> b in PendingOutgoing(db, a)
  {
    ListsFriendIff(db, a, users, dms, friends, b);
    ListsFriendIff(db, b, users, dms, friends, a);
    AcceptedBetweenUsers(db, a, b);
  }

  predicate Recreates(s: Statement, a: Id, b: Id) {
    s.OnFriendships? && s.f.CreateFriendship? && Between((s.f.user, s.f.friend), a, b)
  }

  predicate Parted(db: Db, a: Id, b: Id) {
    !Live(db.friendships, (a, b)) && !Live(db.friendships, (b, a))
  }

  lemma StatementKeepsParted(db: Db, s: Statement, a: Id, b: Id)
    requires Parted(db, a, b) && !Recreates(s, a, b)
    ensures Parted(Execute(db, s), a, b)
  {
    if Check(db, s) != Applied {
      assert Execute(db, s) == db.(clock := db.clock + 1);
    } else {
      assert Execute(db, s).friendships == Apply(db, s, db.clock + 1).friendships;
    }
  }

  // After a delete no view of either party shows the pair, whatever runs, until a create; in particular no
  // UpdateFriendshipStatus brings it back.
  lemma {:induction false} PartedUntilRecreated(db: Db, a: Id, b: Id, statements: seq<Statement>)
    requires forall s | s in statements :: !Recreates(s, a, b)
    ensures var db' := ExecuteAll(Execute(db, OnFriendships(DeleteFriendship(a, b))), statements);
            && Parted(db', a, b)
            && FriendshipsBetween(db', a, b) == {}
            && AcceptedBetween(db'.friendships, a, b) == {}
            && a !in PendingIncoming(db', b) && b !in PendingIncoming(db', a)
  {
    if statements == [] {
    } else {
      var before, s := statements[..|statements| - 1], statements[|statements| - 1];
      PartedUntilRecreated(db, a, b, before);
      StatementKeepsParted(ExecuteAll(Execute(db, OnFriendships(DeleteFriendship(a, b))), before), s, a, b);
    }
  }
}
