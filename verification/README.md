# A verified model of a chat backend's data layer

This project models, in Dafny, the four parts of the backend whose behaviour is decided by its own code:

* **The relational store and its incremental sync.** Nine Postgres tables with soft deletes, every statement of
  `gen/db` that writes them, and the delta sync by which a client keeps its own copy. `Schema`, `Statements` and
  `Queries` are the store; `Integrity` and `SoftDelete` say what every run of statements keeps; `DeltaSync`,
  `SyncQueries`, `Replica`, `SyncedTables`, `Convergence` and `Staleness` say when a client agrees with the server, and
  exactly when it does not; `Friendships`, `SyncReferences`, `OffsetPaging` and `InviteUses` are about the joins, the
  references between the scopes, and the pages read from it.
* **The message log.** Column-wise CQL writes and keyset cursors (`MessageLog`, `NewestFirst`, `MessageQueries`,
  `MessageHistory`, `Cursors`, `HistoryWalk`) and the repository's page above them (`PageOrder`, `RepositoryPaging`).
* **The CQL migration splitter** (`Text`, `CqlSplitter`, `CqlComments`, `CqlRoundTrip`).
* **The event stream of the gateway** (`ServerSentEvents`, `SseRoundTrip`), read back by the parser of sections
  9.2.5 and 9.2.6 of the WHATWG HTML Living Standard.

`dafny verify dfyconfig.toml` checks all of it.

## How the model is laid out

`Queries.Queries` and `MessageQueries.Queries` are classes whose fields are the tables; each writing query is a
method that changes them in place. Its contract says column by column what the new tables are and when it is refused, and
that this is the step `Execute` (or `Put`) of the specification; `InviteUses.Queries` adds the invites in the same way.
The incremental Sync queries, the pending lists and the message queries are methods whose loops collect rows. `Execute(db, s)` and `Put(log, w)` are functions, so that runs, histories and their invariants
can be stated over all sequences of statements.

A `Replica.History` is any interleaving of statements with the events of a sync: `Begin` reads the server time,
`Pull` runs one Sync query and merges its rows by key, `End` hands the server time back as the next watermark. The
handler reads its time before its queries and skips a query that fails, so statements may fall between any two
events and a `Pull` may be absent; `Convergence.CompleteFrom` says that no sync lost its query from some event on.
A client is settled for a row when it holds the version that its watermark excludes: a new client is, and so is one that
agrees with the server (`Convergence.SettledAt`). The convergence lemmas named `...From` start at any settled moment.

## What is assumed

* Each query is one atomic step. `NOW()` is later at each statement than at every earlier one; the server time a sync
  hands back is the clock when the sync began, and the first watermark is the epoch.
* The primary keys, the `UNIQUE` columns, the foreign keys and the column defaults are those of
  `db/timescale/migrations`; a violated one refuses the statement and changes no row. No trigger exists, and nothing
  is removed physically.
* Ids that the database generates are parameters. A query visits rows in an order it chooses; every theorem about a
  result holds for any such order.
* CQL writes take effect in statement order. Rows of a channel are clustered by id, descending
  (`db/scylla/schema/000001_init.cql`). `LIMIT` must be positive.
* Ids are natural numbers, compared as the database compares them. Go's `int` has 64 bits.

## Findings about the code

These are results of the model: each is a theorem, with the exact condition or a concrete history.

* **A late joiner misses an older guild.** Joining a guild stamps the member row, not the guild row, so a client
  that has synced before it joins does not receive the guild until a statement stamps it
  (`Staleness.MissedGuildStaysMissing`, and the concrete `Staleness.LateJoinerMissesTheGuild`). The client holds a
  row's current version exactly if a pull offered it (`Convergence.HoldsCurrentIffDelivered`).
* **Edits of guilds, roles and channels are not stamped.** Clients agree on ids and deletions, but a client's row of
  these tables is right exactly if the server's row is still the one last brought to it
  (`Staleness.UnstampedTablesRightIff`); `Staleness.EditsGoUnseen` is a history of two syncs that misses all three kinds.
* **A synced DM does not bring its partner.** The DM member row of another user is synced while that user is not,
  exactly when no live friendship row links the two and the partner has no member row in a guild of the viewer
  (`SyncReferences.DmPartnerIsInScopeIff`): after an unfriending
  (`SyncReferences.DmPartnerCanLeaveScope`), or when they never were friends, since opening a DM asks for no friendship
  (`SyncReferences.StrangersTalkOutOfScope`).
* **The message feed of the sync holds tombstones only**, since only a delete writes `updated_at`
  (`MessageHistory.FeedHoldsNoLiveMessage`); deleting an id that was never created puts a row of NULLs into it
  (`MessageHistory.DeletedBlankIsFed`), and the handler dereferences columns that are set exactly in rows of created
  messages (`MessageHistory.FeedRowIsWholeIff`).
* **Walking a channel through the repository can stop early.** A page of deleted messages comes back empty although live
  messages lie behind it (`RepositoryPaging.RepositoryWalkIsCompleteIff`, `RepositoryPaging.WalkCanMissALiveMessage`).
* **A comment behind a semicolon on the same line is executed.** This is the exact condition, on the text of the file
  (`CqlComments.CommentsAreExecutedIff`), with a literal instance in `CqlRoundTrip.RemarkIsExecuted`.

Where code and documentation differ, the model follows the code: `docs/DATA_MODEL.md:31` has two rows for an accepted
friendship, the code keeps one directed row; `docs/features/sync.md` describes an initial sync and a resync, the handler
has the delta sync alone; `docs/features/message.md:131-132` says that a delete cascades to replies, the code leaves them;
`cmd/init/main.go:133` looks for CQL files under `db/scylla/migrations`, the repository keeps its CQL under `db/scylla/schema`.

## Model

| member | source | states |
|---|---|---|
| `Queries.Queries.CreateUser` | gen/db/users.sql.go:27-31 | inserts the row with the schema's defaults at the next clock, or refuses a taken id, username or email and changes no row |
| `Queries.Queries.UpdateUser` | gen/db/users.sql.go:238-249 | COALESCEs six columns and stamps the row; reports no rows for an unknown id and refuses a username another row holds, deleted rows included |
| `Queries.Queries.VerifyUser` | gen/db/users.sql.go:290-294 | sets verified and stamps the row, or reports no rows |
| `Queries.Queries.DeleteUser` | gen/db/users.sql.go:66-68 | soft-deletes and stamps, even a row already deleted; an unknown id changes nothing |
| `Queries.Queries.CreateFriendship` | gen/db/friendships.sql.go:14-19 | inserts or revives exactly the directed row, keeping created_at on conflict; refuses unknown users |
| `Queries.Queries.UpdateFriendshipStatus` | gen/db/friendships.sql.go:321-325 | sets the status of the directed row, deleted or not, without a stamp; otherwise reports no rows |
| `Queries.Queries.DeleteFriendship` | gen/db/friendships.sql.go:41-44 | soft-deletes and stamps both directed rows, whichever exist |
| `Queries.Queries.CreateGuild` | gen/db/guilds.sql.go:100-104 | inserts a live stamped guild, or refuses a taken id or an unknown owner |
| `Queries.Queries.UpdateGuild` | gen/db/guilds.sql.go:572-580 | COALESCEs four columns and leaves deleted and updated_at as they were, or reports no rows |
| `Queries.Queries.TransferGuildOwnership` | gen/db/guilds.sql.go:545-548 | sets the owner and leaves deleted and updated_at as they were; refuses an unknown owner |
| `Queries.Queries.DeleteGuild` | gen/db/guilds.sql.go:189-191 | soft-deletes and stamps the guild row and no other table |
| `Queries.Queries.AddGuildMember` | gen/db/guilds.sql.go:14-19 | inserts or revives the member with the new nickname, invite code and inviter, keeping joined_at on conflict, live and stamped; refuses unknown references |
| `Queries.Queries.RemoveGuildMember` | gen/db/guilds.sql.go:531-533 | soft-deletes and stamps the member row |
| `Queries.Queries.CreateBan` | gen/db/guilds.sql.go:73-78 | inserts or revives the ban with the new reason, keeping created_at on conflict |
| `Queries.Queries.DeleteBan` | gen/db/guilds.sql.go:175-177 | soft-deletes and stamps the ban row |
| `Queries.Queries.CreateRole` | gen/db/roles.sql.go:29-33 | inserts a live stamped role, or refuses a taken id or an unknown guild |
| `Queries.Queries.UpdateRole` | gen/db/roles.sql.go:246-253 | COALESCEs three columns and leaves deleted, guild and updated_at as they were |
| `Queries.Queries.DeleteRole` | gen/db/roles.sql.go:63-65 | soft-deletes and stamps the role row and no assignment |
| `Queries.Queries.AssignRole` | gen/db/roles.sql.go:14-17 | inserts or revives the assignment, stamped; refuses unknown references |
| `Queries.Queries.RemoveRole` | gen/db/roles.sql.go:232-234 | soft-deletes and stamps the assignment |
| `Queries.Queries.CreateChannel` | gen/db/channels.sql.go:29-33 | inserts a live stamped channel; NULL guild or parent is allowed, an unknown one is refused |
| `Queries.Queries.CreateDMChannel` | gen/db/channels.sql.go:69-73 | inserts a channel without guild or parent |
| `Queries.Queries.UpdateChannel` | gen/db/channels.sql.go:361-369 | COALESCEs four columns and leaves deleted, guild and updated_at as they were; refuses an unknown parent |
| `Queries.Queries.DeleteChannel` | gen/db/channels.sql.go:98-100 | soft-deletes and stamps the channel row |
| `Queries.Queries.AddDMChannelMember` | gen/db/channels.sql.go:14-17 | inserts or revives the member row, stamped; refuses unknown references |
| `Queries.Queries.RemoveDMChannelMember` | gen/db/channels.sql.go:347-349 | soft-deletes and stamps the member row |
| `Queries.Queries.GetFriendship` | gen/db/friendships.sql.go:56-60 | returns an undeleted row of the pair in one of the two directions, as stored, and none iff both are missing or deleted |
| `Queries.Queries.ListPendingIncoming` | gen/db/friendships.sql.go:183-188 | lists each row once, as stored, iff its friend_id is the viewer, its status pending, it is not deleted, and its user exists |
| `Queries.Queries.ListPendingOutgoing` | gen/db/friendships.sql.go:252-257 | lists each row once, as stored, iff its user_id is the viewer, its status pending, it is not deleted, and its friend exists |
| `Queries.Queries.SyncUsers` | gen/db/sync.sql.go:301-318 | lists each user row once, as stored, iff it is stamped past the watermark and is the viewer's own, has a live friendship row with the viewer in either direction, or has a member row, removed or not, in a guild where the viewer's member row is not deleted |
| `Queries.Queries.SyncGuilds` | gen/db/sync.sql.go:219-224 | lists each guild row once, as stored, iff it is stamped past the watermark and the viewer's member row of it exists and is not deleted |
| `Queries.Queries.SyncChannels` | gen/db/sync.sql.go:14-23 | lists each channel row once, as stored, iff it is stamped past the watermark and the viewer has an undeleted member row of its guild, if it has one, or an undeleted DM member row of the channel |
| `Queries.Queries.SyncRoles` | gen/db/sync.sql.go:261-265 | lists each role row once, as stored, iff it is stamped past the watermark and the viewer's member row of its guild exists and is not deleted |
| `Queries.Queries.SyncGuildMembers` | gen/db/sync.sql.go:179-183 | lists each member row once, as stored and tombstones included, iff it is stamped past the watermark and the viewer's member row of its guild exists and is not deleted |
| `Queries.Queries.SyncDmMembers` | gen/db/sync.sql.go:61-66 | lists each DM member row once, as stored and tombstones included, iff it is stamped past the watermark and the viewer's DM member row of its channel exists and is not deleted |
| `Queries.CollectRows` | gen/db/sync.sql.go:185-215 | the row loop of a Sync query: whatever order rows come in, the list holds exactly the delta, each key once |
| `Queries.CollectWhere` | gen/db/friendships.sql.go:189-250 | the row loop of a list query: each wanted row once, as stored, and no other |
| `Queries.MergingRowsMergesDelta` | gen/db/sync.sql.go:179-183 | merging a received list row by row, in any order, is merging the delta as a map; this ties the lists of the Sync methods to the events of a history |
| `Integrity.StatementsGrow` | docs/README.md:52-54 | no statement removes a row of any of the nine tables; a row it inserts is stamped now, and any other keeps its stamp or gets now |
| `Integrity.RunsGoForward` | docs/README.md:52-54 | over any run of statements, in all nine tables: no key vanishes, no stamp goes back, every stamp lies between 1 and the clock, and the clock counts the statements |
| `Integrity.StatementsKeepGuildPairs` | db/timescale/migrations/000004_guild_members.sql:2-12 | guild and user of every member and ban row exist after any statement if they did before |
| `Integrity.StatementsKeepOtherPairs` | db/timescale/migrations/000002_friendships.sql:2-10 | both ends of every friendship, role assignment and DM membership exist after any statement if they did before |
| `Integrity.StatementsKeepGuildReferences` | db/timescale/migrations/000003_guilds.sql:2-12 | owners, inviters and guilds of roles exist after any statement if they did before |
| `Integrity.StatementsKeepChannelReferences` | db/timescale/migrations/000007_channels.sql:2-12 | guild and parent of every channel are NULL or exist after any statement if they did before |
| `Integrity.StatementsKeepUsersDistinct` | db/timescale/migrations/000001_users.sql:4-8 | usernames and emails stay pairwise different, deleted users included |
| `Integrity.EveryReachableDbIsConsistent` | db/timescale/migrations/000001_users.sql:4-8 | after any sequence of statements from the empty database: stamps lie between 1 and the clock, all references resolve, usernames and emails are unique |
| `SoftDelete.StepRefinesSets` | gen/db/guilds.sql.go:14-19 | one statement changes the live keys of the five membership tables as the plain set operation does, or not at all when refused; a friendship delete removes both directions |
| `SoftDelete.RunsRefineSets` | gen/db/guilds.sql.go:531-533 | after any run the live view of friendships, guild members, bans, role members and DM members equals plain set adds and removes of the accepted statements |
| `SoftDelete.DeletionIsPermanent` | gen/db/users.sql.go:66-68 | a deleted user, guild, role or channel stays deleted through any run of statements: unlike memberships, these have no revival |
| `DeltaSync.EveryRunIsSound` | internal/features/sync/handler.go:56-64 | for any table whose writers keep rows and stamp what is not fixed: watermark <= pending <= clock, the client holds no unknown row and none newer than the server's, and rows of equal stamp agree on deleted and the fixed columns |
| `DeltaSync.CurrentIffOffered` | gen/db/sync.sql.go:179-183 | a client holds the current version of a row if and only if some pull had the key in scope and the version between watermark and clock |
| `DeltaSync.SettledStays` | internal/features/sync/handler.go:56-64 | a client that at any frame holds every version its watermark will exclude keeps doing so while the key is in scope at each later pull and no later sync skips the table, whatever happened before |
| `DeltaSync.AttendedRunsSettle` | internal/features/sync/handler.go:56-64 | corollary of SettledStays for a new client, which is settled from the start |
| `DeltaSync.PullConvergesFrom` | gen/db/sync.sql.go:179-183 | from any settled frame on, in scope at every pull: right after a pull the client holds the key iff the server does, with the same stamp, deleted flag and fixed columns |
| `DeltaSync.PullConverges` | gen/db/sync.sql.go:179-183 | corollary of PullConvergesFrom for a new client |
| `DeltaSync.HeldIsLastSent` | gen/db/sync.sql.go:14-318 | in any run the client holds, in all columns, the row as the last pull that brought it found it, and no row iff no pull ever brought one |
| `DeltaSync.FrozenBehindWatermark` | gen/db/sync.sql.go:219-224 | what the client holds for a key whose stamp is behind the watermark does not change, through any events, until the server stamps the row again |
| `Replica.FrameStep` | internal/features/sync/handler.go:62-64 | each statement and each sync event is a step of the one-table protocol, for every lawful table |
| `Replica.FramesRun` | internal/features/sync/handler.go:46-170 | every history of statements and syncs, seen through one table, is a run of the one-table protocol |
| `SyncedTables.UserTableEvolves` | gen/db/users.sql.go:238-249 | no statement changes any column of a user without stamping the row |
| `SyncedTables.GuildMemberTableEvolves` | gen/db/guilds.sql.go:14-19 | no statement changes any column of a guild member without stamping the row |
| `SyncedTables.DmMemberTableEvolves` | gen/db/channels.sql.go:14-17 | no statement changes a DM member row without stamping it |
| `SyncedTables.GuildTableEvolves` | gen/db/guilds.sql.go:572-580 | statements that leave a guild's stamp alone leave deleted and created_at alone |
| `SyncedTables.RoleTableEvolves` | gen/db/roles.sql.go:246-253 | statements that leave a role's stamp alone leave deleted, guild and created_at alone |
| `SyncedTables.ChannelTableEvolves` | gen/db/channels.sql.go:361-369 | statements that leave a channel's stamp alone leave deleted, guild, type and created_at alone |
| `Convergence.FetchConvergesFrom` | internal/features/sync/handler.go:46-170 | for any synced table, key and event m at which the client is settled, out of scope before it or not: in scope at each fetch from m on, after a fetch the client has the row iff the server has, equal in stamp, deleted and the fixed columns |
| `Convergence.AgreementIsSettled` | internal/features/sync/handler.go:46-170 | a client whose row agrees with the server in those columns, or that lacks it as the server does, is settled |
| `Convergence.FetchConverges` | internal/features/sync/handler.go:46-170 | corollary of FetchConvergesFrom for a new client |
| `Convergence.HoldsCurrentIffDelivered` | gen/db/sync.sql.go:14-23 | in any history at all, failed queries included, a client holds a row's current version if and only if some fetch delivered that version |
| `Convergence.HeldIsLastBrought` | gen/db/sync.sql.go:14-318 | in any history at all, the client's row of any synced table is, in all columns, the row of the last fetch that brought it, and is missing iff none did |
| `Convergence.RightIffUnchanged` | gen/db/sync.sql.go:14-318 | in any history, the client's row equals the server's in all columns if and only if the server's row is still as the last fetch that brought it found it |
| `Convergence.FrozenUntilStamped` | gen/db/sync.sql.go:219-224 | in any history, a row behind the watermark is frozen on the client until the server stamps it |
| `Convergence.GuildMembersConvergeFrom` | gen/db/sync.sql.go:179-183 | from any moment at which the client is settled for the guild: live in it at every later fetch (it may leave and rejoin in between), the mirror's rows of the guild equal the server's, tombstones included |
| `Convergence.GuildMembersStayConverged` | gen/db/sync.sql.go:179-183 | a mirror of the guild that equals the server's rows at any moment equals them again after each later fetch, if the viewer is live in the guild at those fetches, wherever it was before |
| `Convergence.GuildMembersConverge` | gen/db/sync.sql.go:179-183 | corollary of GuildMembersConvergeFrom for a new client |
| `Convergence.DmMembersConvergeFrom` | gen/db/sync.sql.go:61-66 | the same for the members of a DM channel |
| `Convergence.DmMembersConverge` | gen/db/sync.sql.go:61-66 | corollary of DmMembersConvergeFrom for a new client |
| `Convergence.UsersConvergeFrom` | gen/db/sync.sql.go:301-318 | from any moment at which the client is settled for a user: in scope at every later fetch, the user is mirrored exactly, in all columns |
| `Convergence.UsersConverge` | gen/db/sync.sql.go:301-318 | corollary of UsersConvergeFrom for a new client |
| `Convergence.FormerMembersStayInScope` | gen/db/sync.sql.go:301-318 | once a user has a member row in a guild, it stays in the user scope of every live member in every later state, removed or not |
| `Convergence.HomesAlwaysAgree` | gen/db/roles.sql.go:246-253 | in every history, each channel and role the client holds exists on the server in the same guild |
| `Convergence.GuildChannelsConvergeFrom` | gen/db/sync.sql.go:14-23 | from any moment at which the client is settled for the guild's channels: after a fetch their ids and deleted flags agree in both directions, although channel edits are not stamped |
| `Convergence.GuildChannelsConverge` | gen/db/sync.sql.go:14-23 | corollary of GuildChannelsConvergeFrom for a new client |
| `Convergence.GuildRolesConvergeFrom` | gen/db/sync.sql.go:261-265 | the same for the guild's roles |
| `Convergence.GuildRolesConverge` | gen/db/sync.sql.go:261-265 | corollary of GuildRolesConvergeFrom for a new client |
| `Convergence.GuildConvergesFrom` | gen/db/sync.sql.go:219-224 | from any moment at which the client is settled for the guild: after a fetch it is on the client iff on the server, with the same deleted flag, although edits and transfers are not stamped |
| `Convergence.GuildConverges` | gen/db/sync.sql.go:219-224 | corollary of GuildConvergesFrom for a new client |
| `Staleness.MissedGuildStaysMissing` | gen/db/sync.sql.go:219-224 | a guild the client lacks whose stamp is behind the watermark stays missing through every further event, joining included, until it is stamped |
| `Staleness.UnstampedTablesRightIff` | gen/db/guilds.sql.go:572-580 | in any history, a client's guild, role or channel row is right in all columns if and only if the server's row is the one last brought |
| `Staleness.GoesStaleIffEdited` | gen/db/roles.sql.go:246-253 | for any synced table, while the stamp stands a row that was right and behind the watermark is still right if and only if the server's row is unchanged |
| `Staleness.EditsGoUnseen` | gen/db/channels.sql.go:361-369 | builds a history in which a live member syncs, a guild, a role and a channel are renamed, and it syncs again: its mirror is wrong about all three |
| `Staleness.ChannelGoesStaleIffEdited` | gen/db/channels.sql.go:361-369 | the channel case of GoesStaleIffEdited |
| `Staleness.LateJoinerMissesTheGuild` | internal/features/sync/handler.go:46-170 | builds a history in which a viewer syncs, joins an older guild and completes another sync: it is live in a live guild that its mirror lacks |
| `Friendships.ListFriendsBag` | gen/db/friendships.sql.go:122-129 | for any scan orders the two LEFT JOINs and the WHERE return each user (live accepted rows with the viewer) x max(1, its DM member rows) times |
| `Friendships.ListFriendsRows` | gen/db/friendships.sql.go:122-129 | the same count in terms of the tables: undeleted accepted rows in either direction, times the DM rows of the user, or once where it has none |
| `Friendships.ListFriendsHasRowIff` | gen/db/friendships.sql.go:122-129 | a row comes iff its user exists, its friendship is undeleted, accepted and links the two in either direction, and its channel is a DM row of the user, or NULL where the user has none |
| `Friendships.ListsFriendIff` | gen/db/friendships.sql.go:122-129 | a user is listed iff it exists and an undeleted row of status accepted links it to the viewer in either direction: the outer joins act as an inner join |
| `Friendships.SyncFriendshipsBag` | gen/db/sync.sql.go:99-113 | each friendship of the viewer comes max(1, DM rows of friend_id) times, no other comes, and each row carries the other party's user, never NULL |
| `Friendships.SyncFriendshipsHasRowIff` | gen/db/sync.sql.go:99-113 | a row comes iff its friendship, deleted or not, is one of the viewer's, its user is the other party, and its channel is a DM row of friend_id, or NULL where friend_id has none |
| `Friendships.ViewsAreMutual` | gen/db/friendships.sql.go:56-60 | the two parties list each other or neither does, GetFriendship finds the same rows from both sides, and incoming of one is outgoing of the other |
| `Friendships.PartedUntilRecreated` | gen/db/friendships.sql.go:41-44 | after a delete no view shows the pair through any run without a create of it, status updates included |
| `SyncReferences.ScopesAreClosed` | gen/db/sync.sql.go:14-318 | in every reachable database, whatever a synced guild member, role or DM member refers to (guild, user, channel) is in the same viewer's scope, the user of a DM member excepted |
| `SyncReferences.ChannelGuildIsInScopeIff` | gen/db/sync.sql.go:14-23 | in every reachable database, the guild of a synced channel is synced iff the viewer is live in it; otherwise the viewer is a live DM member of the channel |
| `SyncReferences.FriendsAreInScope` | gen/db/sync.sql.go:301-318 | everyone ListFriends or a pending list of the viewer shows is in the viewer's user scope, for any scan orders |
| `SyncReferences.DmPartnerIsInScopeIff` | gen/db/sync.sql.go:301-318 | in every reachable database, the user of a synced DM member row is in the viewer's user scope if and only if it is the viewer, a live friendship links the two, or it has a member row in a guild where the viewer is live |
| `SyncReferences.FormerFriendIsInScopeIff` | gen/db/sync.sql.go:301-318 | over runs: after an unfriending and until a new request, the other party is in the user scope if and only if it shares a guild with the live viewer |
| `SyncReferences.DmPartnerCanLeaveScope` | gen/db/sync.sql.go:61-66 | a concrete run after which a live DM member row is synced to the viewer while the user it names is not in the viewer's user scope |
| `SyncReferences.StrangersTalkOutOfScope` | internal/features/channel/service.go:305-345 | a concrete run without any friendship, a DM opened between two users, after which the partner's member row is synced and its user is not |
| `SyncReferences.RemovedUntilAdded` | gen/db/guilds.sql.go:531-533 | after a removal the member row, if there is one, stays deleted through any statements without an add of that member |
| `SyncReferences.RemovedMemberIsSentNothing` | gen/db/sync.sql.go:14-318 | after a removal and through any statements without an add of that member, no delta, from any watermark, holds the guild, a role or a member row of it, and a channel of it only if the user has an undeleted DM row of that channel |
| `OffsetPaging.SortedResultIsUnique` | gen/db/users.sql.go:164-172 | with an order that never ties on the matching rows, any two sorts of them are the same list |
| `OffsetPaging.PagesTile` | gen/db/users.sql.go:164-172 | consecutive LIMIT/OFFSET pages, each from its own sort, concatenate to the whole sorted result, without gap or repeat, of the counted length |
| `OffsetPaging.JoinTimesNeverTie` | gen/db/guilds.sql.go:14-19 | in every reachable database no two member rows share joined_at, re-joining included, so ORDER BY joined_at is total |
| `OffsetPaging.MemberPagesTile` | gen/db/guilds.sql.go:364-369 | in every reachable database the member pages of a guild hold exactly its undeleted member rows, each once, by strictly rising joined_at, as many as CountGuildMembers |
| `OffsetPaging.UserPagesTile` | gen/db/users.sql.go:164-172 | in every reachable database the search pages hold exactly the undeleted users whose name matches, each once, in strict order of name, as many as CountSearchUsers, for any strict total order of names |
| `InviteUses.Queries.CreateInvite` | gen/db/guilds.sql.go:135-139 | inserts an unused live invite, or refuses a taken code or unknown references |
| `InviteUses.Queries.IncrementInviteUses` | gen/db/guilds.sql.go:298-300 | adds exactly 1 to uses and changes nothing else, deleted or not; nothing for an unknown code, or at the top of INTEGER |
| `InviteUses.Queries.DeleteInvite` | gen/db/guilds.sql.go:198-200 | soft-deletes and stamps the invite |
| `InviteUses.Queries.RecordInviteUse` | gen/db/guilds.sql.go:499-503 | inserts a use at the next clock, or refuses unknown references, and touches no counter |
| `InviteUses.EveryReachableStoreResolves` | db/timescale/migrations/000014_invite_uses.sql:2-9 | after any run of all statements, code, guild, user and inviter of every use exist, and no two uses share used_at |
| `InviteUses.InviteUsePagesTile` | gen/db/guilds.sql.go:406-413 | in every reachable state the pages of the joined list hold exactly the uses of the code, each once, by strictly falling used_at, as many as CountInviteUsesByCode, which ignores the join |
| `InviteUses.GuildInviteUsePagesTile` | gen/db/guilds.sql.go:307-314 | in every reachable state the pages of the joined list hold exactly the uses in the guild, each once, by strictly falling used_at |
| `InviteUses.ListPartsFromCountIff` | gen/db/guilds.sql.go:62-64 | in any state at all the joined list is as long as the count if and only if every use of the code has its user; it is never longer |
| `MessageQueries.Queries.Createmessage` | gen/scylladb/message.go:28-33 | writes exactly its twelve columns; deleted, edited_at and updated_at of an existing row survive |
| `MessageQueries.Queries.Updatemessagecontent` | gen/scylladb/message.go:70-75 | writes content and edited_at and no other column, creating the row if absent |
| `MessageQueries.Queries.Deletemessage` | gen/scylladb/message.go:77-82 | sets deleted and updated_at and no other column, creating the row if absent |
| `MessageQueries.Queries.Setpinned` | gen/scylladb/message.go:171-176 | writes pinned and no other column, creating the row if absent |
| `MessageQueries.Queries.Listrecentmessages` | gen/scylladb/message.go:142-169 | the newest rows of the channel up to the limit, newest first; a limit below 1 is refused |
| `MessageQueries.Queries.Listmessagesbefore` | gen/scylladb/message.go:84-111 | the newest rows below the cursor up to the limit, newest first; a limit below 1 is refused |
| `MessageQueries.Queries.Listmessagesafter` | gen/scylladb/message.go:113-140 | the oldest rows above the cursor up to the limit, oldest first; a limit below 1 is refused |
| `MessageQueries.Queries.Countunreadmessages` | gen/scylladb/message.go:374-401 | all rows above the cursor, newest first |
| `MessageQueries.Queries.Countallmessages` | gen/scylladb/message.go:403-430 | all rows of the channel, newest first |
| `MessageQueries.Queries.Getmessagessince` | gen/scylladb/message.go:178-205 | the rows whose updated_at is set and later than the time, newest first |
| `MessageQueries.CollectNewestFirst` | gen/scylladb/message.go:142-169 | the scan loop: repeatedly taking the newest candidate up to the limit yields the prefix of the descending list |
| `MessageQueries.CollectOldestFirst` | gen/scylladb/message.go:113-140 | the ascending scan loop yields the prefix of the reversed descending list |
| `NewestFirst.DescLists` | gen/scylladb/message.go:403-430 | the descending list of a set of ids is strictly descending and holds exactly that set |
| `NewestFirst.ListIsUnique` | gen/scylladb/message.go:403-430 | a strictly descending list is determined by the set of its ids |
| `MessageHistory.RowTellsHistory` | gen/scylladb/message.go:70-82 | for any run of writes: a row exists iff written to, updated_at is the timestamp of its last delete, deleted is set iff updated_at is, author and type are set iff created, content iff created or edited, pinned iff created or pinned |
| `MessageHistory.RowHoldsLastWrites` | gen/scylladb/message.go:28-82 | for any run of writes, by value: content is that of the last create or edit of the key, edited_at of the last edit, pinned of the last create or pin, updated_at of the last delete, and NULL without one |
| `MessageHistory.RowHoldsLastCreate` | gen/scylladb/message.go:28-33 | for any run of writes, by value: author, type, reply, created_at, forwarding columns and mentions are those of the last create of the key, and unset without one |
| `MessageHistory.SinceIsTheTombstoneFeed` | gen/scylladb/message.go:178-205 | GetMessagesSince returns exactly the ids whose last delete carries a later timestamp |
| `MessageHistory.FeedHoldsNoLiveMessage` | internal/features/sync/handler.go:171-206 | every message the feed ever returns is deleted |
| `MessageHistory.FeedRowIsWholeIff` | internal/features/sync/handler.go:186-206 | the columns the handler dereferences, deleted, content, type and pinned, are all set in a row of the feed if and only if the message was really created; so are author and content |
| `MessageHistory.DeletedBlankIsFed` | internal/features/message/service.go:958-974 | deleting an id that was never created puts a row into the feed whose every other column is NULL |
| `MessageHistory.DeletionIsPermanent` | gen/scylladb/message.go:77-82 | a deleted message stays deleted and stamped through any later writes, a second create included |
| `Cursors.BackAndForth` | gen/scylladb/message.go:84-140 | from the oldest id of a non-empty page, reading forward one less than the page gives the rest of the page reversed (for one-message pages: nothing is left to read) |
| `Cursors.BothSidesMakeTheChannel` | gen/scylladb/message.go:84-140 | everything before any cursor reversed, the cursor's message if present, then everything after it is the whole channel in ascending order |
| `Cursors.UnreadSplits` | gen/scylladb/message.go:374-401 | for a <= b, unread after a is unread after b followed by the messages in (a, b] |
| `Cursors.NewMessageIsUnreadBelow` | gen/scylladb/message.go:374-401 | a new message makes unread one longer for exactly the cursors below it and changes no other channel |
| `Cursors.NothingUnreadAtNewest` | gen/scylladb/message.go:374-401 | unread is empty iff no id of the channel lies above the cursor |
| `HistoryWalk.WalkYieldsTheStart` | gen/scylladb/message.go:84-111 | reading recent and then before the last id, enough pages yield every message present at the start exactly once in strictly descending order, whatever edits, pins, deletes and newer inserts run between the pages |
| `HistoryWalk.WalkStops` | gen/scylladb/message.go:84-111 | below the oldest starting message every later page is empty, so the walk ends |
| `RepositoryPaging.Doubled` | internal/features/message/repository.go:74-74 | limit * 2 in 64-bit arithmetic: congruent to the double and in range |
| `RepositoryPaging.KeepAlive` | internal/features/message/repository.go:99-109 | the filter loop keeps the live rows in order and stops at the limit; a limit below 1 still lets one row through |
| `RepositoryPaging.ListMessages` | internal/features/message/repository.go:73-110 | for a positive limit whose double is a 64-bit number, the first limit undeleted rows among the first 2 * limit rows past the cursor (before wins over after, neither means all), hence empty iff none of those is undeleted; among the first limit rows when doubling wraps; refused iff the limit is from -2^62 to 0 or is -2^63, one row otherwise |
| `PageOrder.PageIsFirstLive` | internal/features/message/repository.go:99-109 | cutting the undeleted rows of a limited list gives the first undeleted rows whose number of predecessors is below the limit, in either order |
| `PageOrder.FirstLiveIsUnique` | internal/features/message/repository.go:99-109 | those conditions determine the page |
| `RepositoryPaging.WalkRowsIff` | internal/features/message/repository.go:99-109 | on any list the walk returns a prefix of its live ids, all of them iff nowhere a full fetch of deleted rows precedes a live one |
| `RepositoryPaging.RepositoryWalkIsCompleteIff` | internal/features/message/repository.go:73-110 | walking a channel by the last message seen returns live messages only, newest first, and misses none if and only if no full fetch of deleted messages lies before a live one |
| `RepositoryPaging.WalkCanMissALiveMessage` | internal/features/message/repository.go:73-110 | three messages, the newer two deleted: a walk with limit 1 returns nothing although one message is live |
| `RepositoryPaging.PageLooksPastADeletedMessage` | internal/features/message/repository.go:74-77 | two messages, the newer one deleted: a page with limit 1 returns the older one |
| `CqlSplitter.Migrate` | cmd/init/main.go:144-163 | of the lines, exactly those whose trim does not start with -- stay, in order; of the pieces between semicolons of what stays, exactly those whose trim is not empty, whose first four characters upper-cased are not "USE " and whose first fifteen are not "CREATE KEYSPACE" are sent, trimmed and in order |
| `CqlSplitter.CleaningIsIdempotent` | cmd/init/main.go:144-153 | stripping comment lines from a stripped text changes nothing |
| `CqlSplitter.CommentsDoNotMatter` | cmd/init/main.go:144-153 | inserting a full-line comment anywhere between lines, semicolons in it or not, leaves the statement list as it was |
| `CqlSplitter.FilesCompose` | cmd/init/main.go:144-163 | if a text with comments stripped ends in a semicolon, the text, a newline and another text give the statements of the one and then of the other |
| `CqlRoundTrip.RoundTrip` | cmd/init/main.go:144-163 | for clean statements printed one a line, any file that strips to the printed lines splits to exactly those statements |
| `CqlRoundTrip.PrintedRoundTrip` | cmd/init/main.go:144-163 | the plain print of clean statements without comment lines splits to exactly those statements |
| `CqlRoundTrip.SplittingIsStableIff` | cmd/init/main.go:144-163 | for every text, printing its statements and splitting again gives them back if and only if no line of the text, not a comment itself, has a comment behind a semicolon; equivalently no statement has a comment line |
| `CqlComments.CommentsAreExecutedIff` | cmd/init/main.go:144-163 | for every text, a comment is executed as a statement, or as a line of one, if and only if some line that is not a comment itself has a comment behind a semicolon |
| `CqlRoundTrip.InlineCommentIsExecuted` | cmd/init/main.go:147-149 | a one-line statement followed by a comment on its line runs as two statements, and does not survive printing and splitting again |
| `CqlRoundTrip.RemarkIsExecuted` | cmd/init/main.go:144-163 | the text "TRUNCATE t;-- all" runs TRUNCATE t and then the comment |
| `CqlRoundTrip.KeyspaceStatementsAreSkipped` | cmd/init/main.go:158-160 | of the text "use k;CREATE KEYSPACE k;CREATE TABLE t (id INT)" only the CREATE TABLE runs |
| `Text.UpperLetters` | cmd/init/main.go:158-158 | which characters upper-case to an ASCII letter: it, its lower case, U+017F for S and U+0131 for I; other ASCII characters stay |
| `Text.SpaceCodes` | cmd/init/main.go:157-157 | the code points that trimming removes |
| `ServerSentEvents.ResponseWriter.Encode` | internal/app/gateway_sse.go:36-47 | appends one chunk holding the framed body, with no delimiter, or nothing when the marshaller fails |
| `ServerSentEvents.ChunkingDoesNotMatter` | internal/app/gateway_sse.go:36-47 | a reader fed chunk by chunk ends where parsing the whole text ends, CR LF pairs and the byte order mark cut anywhere |
| `SseRoundTrip.MessagesComeBack` | internal/app/gateway_sse.go:21-31 | an idle reader fed messages without line breaks appends exactly those bodies, in order, as message events and is idle again |
| `SseRoundTrip.StreamWeighs` | internal/app/gateway_sse.go:21-31 | a reader never dispatches more than was sent, and strictly less as soon as one body has a line break |
| `SseRoundTrip.StreamRoundTripIff` | internal/app/gateway_sse.go:21-47 | for any bodies and any cut into chunks, the dispatched data values are exactly the bodies if and only if no body has CR or LF |
| `SseRoundTrip.EventLine` | internal/app/gateway_sse.go:21-31 | on the reader's side, section 9.2.6: an event field sets the type |
| `SseRoundTrip.IdLine` | internal/app/gateway_sse.go:21-31 | on the reader's side, section 9.2.6: an id field sets the last event id unless it holds NUL |

## Left out

* Protobuf, gRPC and gateway generated code, the wiring in `internal/app`, and the services for voice, presence,
  authentication and permissions: wiring, I/O, or decisions that an external authorization service takes.
* Whether `invites.uses` equals the number of recorded uses: the service issues the two statements separately and ignores
  the error of either.
* Reads by key and unpaged lists (`GetUserByID`, `ListUserGuilds`, `ListGuildRoles` and the like), and
  `GetDMChannelBetweenUsers`: selections that are read off the tables.
* `ListFriends` and `SyncFriendships` are functions on scans, not methods: their row loops copy rows one by one, and what
  matters is the bag the joins produce. `ListBlocked` is left out.
* Message attachments, reactions, read states, edit history and search: stored beside the log and unrelated to its cursors.
* `sqlutil.SplitStatements` and `sqlutil.GooseUpSection`: the relational migrations' splitter.
* What the sync handler does around the queries: presence overlay on the user status, the columns it omits from the wire
  messages, and the list of channels whose messages it asks for. A mirror holds the rows of the queries.
* A client that applies only part of a response, and several devices of one viewer.
* Postgres transactions that overlap a sync or share one timestamp, clock skew between the handler and the database, CQL
  cell timestamps, replication and quorum.
* Column widths, NULL for a NOT NULL column, a channel that is its own parent at creation, string normalisation, the
  matching rules of ILIKE (any predicate on names stands for it), invalid UTF-8.
* Connection errors, a failing statement of a CQL file (it is logged and the next one runs), file order and globbing.
* A failing `Write` of the response writer, an unfinished stream, and reconnection.
- Queries.Queries.CreateUser: ids are parameters instead of generated, so a collision is a unique violation here.
- Cursors.BackAndForth: speaks of the ids; a page of one message would ask for `LIMIT 0`, which CQL refuses.
- HistoryWalk.WalkYieldsTheStart: inserting an id older than the newest starting message between two pages is excluded; such a message may or may not be seen.
- OffsetPaging.MemberPagesTile: all pages are read from one state; a statement between two pages can shift rows.
- OffsetPaging.UserPagesTile: asks the collation to be a strict total order of names; where two names tie, their order is the database's choice.
- SseRoundTrip.StreamRoundTripIff: a body is the text the JSON marshaller returned; that such text has no raw line break is a property of the marshaller, which is not part of this model.
