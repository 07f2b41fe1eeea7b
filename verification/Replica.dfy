/**
 * A client that keeps itself up to date with the Sync queries, while statements run on the server.
 *
 * The handler reads the server time first, then runs one query a table, and hands the time back with the
 * rows; a query that fails is skipped. Statements may commit between any two of these events.
 */
module Replica {
  import opened Schema
  import opened Statements
  import opened SyncQueries
  import opened DeltaSync

  datatype Relation = Users | Guilds | Channels | Roles | GuildMembers | DmMembers

  datatype Mirrors = Mirrors(
    users: Table<Id, User>,
    guilds: Table<Id, Guild>,
    channels: Table<Id, Channel>,
    roles: Table<Id, Role>,
    guildMembers: Table<(Id, Id), GuildMember>,
    dmMembers: Table<(Id, Id), Link>)

  datatype World = World(db: Db, viewer: Id, mirrors: Mirrors, watermark: Time, pending: Time, pulled: set<Relation>)

  datatype Event = Exec(s: Statement) | Begin | Pull(relation: Relation) | End

  const NOTHING := Mirrors(map[], map[], map[], map[], map[], map[])

  // What the client holds after fetching one relation
  function Fetch(w: World, relation: Relation): Mirrors {
    var db, m := w.db, w.mirrors;
    match relation
    case Users => m.(users := Merge(m.users, Delta(db.users, UserScope(db, w.viewer), w.watermark)))
    case Guilds => m.(guilds := Merge(m.guilds, Delta(db.guilds, GuildScope(db, w.viewer), w.watermark)))
    case Channels => m.(channels := Merge(m.channels, Delta(db.channels, ChannelScope(db, w.viewer), w.watermark)))
    case Roles => m.(roles := Merge(m.roles, Delta(db.roles, RoleScope(db, w.viewer), w.watermark)))
    case GuildMembers =>
      m.(guildMembers := Merge(m.guildMembers, Delta(db.guildMembers, GuildMemberScope(db, w.viewer), w.watermark)))
    case DmMembers =>
      m.(dmMembers := Merge(m.dmMembers, Delta(db.dmMembers, DmMemberScope(db, w.viewer), w.watermark)))
  }

  function Advance(w: World, e: Event): World {
    match e
    case Exec(s) => w.(db := Execute(w.db, s))
    case Begin => w.(pending := w.db.clock, pulled := {})
    case Pull(relation) => w.(mirrors := Fetch(w, relation), pulled := w.pulled + {relation})
    case End => w.(watermark := w.pending)
  }

  // A new client facing an empty server
  predicate Start(w: World) {
    w.db == EMPTY_DB && w.mirrors == NOTHING && w.watermark == 0 && w.pending == 0 && w.pulled == {}
  }

  datatype History = History(worlds: seq<World>, events: seq<Event>)

  predicate Happened(h: History) {
    && |h.worlds| == |h.events| + 1
    && Start(h.worlds[0])
    && forall i | 0 <= i < |h.events| :: h.worlds[i + 1] == Advance(h.worlds[i], h.events[i])
  }

  // ---- one table of the world ----

  datatype Lens<!K(==), !D, !F> = Lens(
    relation: Relation,
    table: Db -> Table<K, D>,
    scope: (Db, Id) -> set<K>,
    mirror: Mirrors -> Table<K, D>,
    fixed: D -> F)

  function FrameOf<K, D, F>(lens: Lens<K, D, F>, w: World, pulling: bool): Frame<K, D> {
    Frame(w.db.clock, lens.table(w.db), lens.scope(w.db, w.viewer), lens.mirror(w.mirrors),
          w.watermark, w.pending, lens.relation in w.pulled, pulling)
  }

  function Frames<K, D, F>(lens: Lens<K, D, F>, h: History): seq<Frame<K, D>> {
    seq(|h.worlds|, i requires 0 <= i < |h.worlds| =>
      FrameOf(lens, h.worlds[i], i < |h.events| && h.events[i] == Pull(lens.relation)))
  }

  ghost predicate Lawful<K(!new), D(!new), F(!new)>(lens: Lens<K, D, F>) {
    && lens.table(EMPTY_DB) == map[]
    && lens.mirror(NOTHING) == map[]
    && (forall db, s ::
          Evolves(lens.table(db), lens.table(Execute(db, s)), db.clock + 1, lens.fixed))
    && (forall w, r :: lens.mirror(Fetch(w, r)) ==
          if r == lens.relation
          then Merge(lens.mirror(w.mirrors), Delta(lens.table(w.db), lens.scope(w.db, w.viewer), w.watermark))
          else lens.mirror(w.mirrors))
  }

  lemma FrameStep<K(!new), D(!new), F(!new)>(lens: Lens<K, D, F>, w: World, e: Event, pulling: bool)
    requires Lawful(lens)
    ensures Next(FrameOf(lens, w, e == Pull(lens.relation)), FrameOf(lens, Advance(w, e), pulling), lens.fixed)
  {
    var f, f' := FrameOf(lens, w, e == Pull(lens.relation)), FrameOf(lens, Advance(w, e), pulling);
    match e
    case Exec(s) => assert Wrote(f, f', lens.fixed);
    case Begin => assert Began(f, f');
    case Pull(r) => assert lens.mirror(Fetch(w, r)) == f'.mirror;
    case End => assert Ended(f, f');
  }

  lemma FramesRun<K(!new), D(!new), F(!new)>(lens: Lens<K, D, F>, h: History)
    requires Lawful(lens) && Happened(h)
    ensures Run(Frames(lens, h), lens.fixed)
  {
    var fs := Frames(lens, h);
    forall i | 0 < i < |fs|
      ensures Next(fs[i - 1], fs[i], lens.fixed)
    {
      assert h.worlds[i] == Advance(h.worlds[i - 1], h.events[i - 1]);
      FrameStep(lens, h.worlds[i - 1], h.events[i - 1], fs[i].pulling);
    }
  }
}
