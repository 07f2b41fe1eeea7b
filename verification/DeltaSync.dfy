/**
 * Incremental sync of one soft-deleted table, for any table.
 *
 * A server table is written by statements; a client pulls the rows in its scope that are newer than its
 * watermark and merges them by key. The frames of a run record what the table, the scope and the client
 * looked like between two events.
 */
module DeltaSync {
  import opened Schema

  // SELECT ... WHERE updated_at > since AND key IN (scope)
  function Delta<K, D>(t: Table<K, D>, scope: set<K>, since: Time): Table<K, D> {
    map key | key in t && key in scope && t[key].updatedAt > since :: t[key]
  }

  function Merge<K, D>(mirror: Table<K, D>, delta: Table<K, D>): Table<K, D> {
    mirror + delta
  }

  // Between two events no row disappears, and a row whose stamp did not move kept its deleted flag and
  // its fixed columns.
  ghost predicate Evolves<K(!new), D(!new), F(!new)>(t: Table<K, D>, t': Table<K, D>, now: Time, fixed: D -> F) {
    && t.Keys <= t'.Keys
    && (forall key | key in t' && key !in t :: t'[key].updatedAt == now)
    && (forall key | key in t :: t'[key].updatedAt == now || Unstamped(t[key], t'[key], fixed))
  }

  ghost predicate Unstamped<D(!new), F(!new)>(row: Row<D>, row': Row<D>, fixed: D -> F) {
    row'.updatedAt == row.updatedAt && row'.deleted == row.deleted && fixed(row'.data) == fixed(row.data)
  }

  /** One moment of a run, as one table sees it. */
  datatype Frame<!K(==), +D> = Frame(
    clock: Time,
    table: Table<K, D>,
    scope: set<K>,         // the keys the viewer's query would let through
    mirror: Table<K, D>,   // what the client has merged so far
    watermark: Time,       // what the client sends as its last sync time
    pending: Time,         // the server time the running sync will hand back
    pulled: bool,          // whether the running sync has fetched this table yet
    pulling: bool)         // whether the next event fetches this table

  predicate Initial<K, D>(f: Frame<K, D>) {
    && f.mirror == map[]
    && f.watermark == 0
    && f.pending == 0
    && !f.pulled
    && forall key | key in f.table :: 0 < f.table[key].updatedAt <= f.clock
  }

  ghost predicate Next<K(!new), D(!new), F(!new)>(f: Frame<K, D>, f': Frame<K, D>, fixed: D -> F) {
    if f.pulling then
      && f'.clock == f.clock && f'.table == f.table
      && f'.watermark == f.watermark && f'.pending == f.pending
      && f'.mirror == Merge(f.mirror, Delta(f.table, f.scope, f.watermark))
      && f'.pulled
    else
      && f'.mirror == f.mirror
      && (|| Wrote(f, f', fixed) || Began(f, f') || Ended(f, f') || Idle(f, f'))
  }

  ghost predicate Wrote<K(!new), D(!new), F(!new)>(f: Frame<K, D>, f': Frame<K, D>, fixed: D -> F) {
    && f'.clock > f.clock && Evolves(f.table, f'.table, f'.clock, fixed)
    && f'.watermark == f.watermark && f'.pending == f.pending && f'.pulled == f.pulled
  }

  ghost predicate Began<K, D>(f: Frame<K, D>, f': Frame<K, D>) {
    && f'.clock == f.clock && f'.table == f.table
    && f'.watermark == f.watermark && f'.pending == f.clock && !f'.pulled
  }

  ghost predicate Ended<K, D>(f: Frame<K, D>, f': Frame<K, D>) {
    && f'.clock == f.clock && f'.table == f.table
    && f'.watermark == f.pending && f'.pending == f.pending && f'.pulled == f.pulled
  }

  // The next event concerns another table.
  ghost predicate Idle<K, D>(f: Frame<K, D>, f': Frame<K, D>) {
    && f'.clock == f.clock && f'.table == f.table
    && f'.watermark == f.watermark && f'.pending == f.pending && f'.pulled == f.pulled
  }

  ghost predicate Run<K(!new), D(!new), F(!new)>(fs: seq<Frame<K, D>>, fixed: D -> F) {
    && fs != []
    && Initial(fs[0])
    && forall i | 0 < i < |fs| :: Next(fs[i - 1], fs[i], fixed)
  }

  function Last<T>(fs: seq<T>): T
    requires fs != []
  {
    fs[|fs| - 1]
  }

  // The client holds the current version of the row.
  predicate Current<K(==), D>(f: Frame<K, D>, key: K) {
    key in f.table && key in f.mirror && f.mirror[key].updatedAt == f.table[key].updatedAt
  }

  // ---- what every run keeps ----

  ghost predicate Sound<K(!new), D(!new), F(!new)>(f: Frame<K, D>, fixed: D -> F) {
    && f.watermark <= f.pending <= f.clock
    && (forall key | key in f.table :: 0 < f.table[key].updatedAt <= f.clock)
    && f.mirror.Keys <= f.table.Keys
    && (forall key | key in f.mirror :: f.mirror[key].updatedAt <= f.table[key].updatedAt)
    && (forall key | key in f.mirror && f.mirror[key].updatedAt == f.table[key].updatedAt ::
          Unstamped(f.mirror[key], f.table[key], fixed))
  }

  lemma SoundStep<K(!new), D(!new), F(!new)>(f: Frame<K, D>, f': Frame<K, D>, fixed: D -> F)
    requires Sound(f, fixed) && Next(f, f', fixed)
    ensures Sound(f', fixed)
  {
  }

  lemma {:induction false} EveryRunIsSound<K(!new), D(!new), F(!new)>(fs: seq<Frame<K, D>>, fixed: D -> F)
    requires Run(fs, fixed)
    ensures Sound(Last(fs), fixed)
  {
    if |fs| > 1 {
      EveryRunIsSound(fs[..|fs| - 1], fixed);
      SoundStep(fs[|fs| - 2], fs[|fs| - 1], fixed);
    }
  }

  // ---- exactly when the client is current ----

  // At frame i the table was pulled, the key was in scope and the given version was newer than the watermark.
  predicate Offered<K, D>(fs: seq<Frame<K, D>>, i: nat, key: K, version: Time) {
    && i + 1 < |fs|
    && fs[i].pulling
    && key in fs[i].scope
    && fs[i].watermark < version <= fs[i].clock
  }

  lemma {:induction false} CurrentIffOffered<K(!new), D(!new), F(!new)>(
    fs: seq<Frame<K, D>>, fixed: D -> F, key: K)
    requires Run(fs, fixed)
    requires key in Last(fs).table
    ensures Current(Last(fs), key) <==> exists i :: Offered(fs, i, key, Last(fs).table[key].updatedAt)
  {
    if |fs| > 1 {
      var past := fs[..|fs| - 1];
      var f, f' := Last(past), Last(fs);
      EveryRunIsSound(past, fixed);
      ClockIsMonotone(past, fixed);
      var version := f'.table[key].updatedAt;
      assert forall i: nat | i + 1 < |past| :: Offered(past, i, key, version) == Offered(fs, i, key, version);
      assert forall i: nat | Offered(fs, i, key, version) :: i + 1 < |past| || i == |past| - 1;
      if key in f.table && f.table[key].updatedAt == version {
        CurrentIffOffered(past, fixed, key);
        if f.pulling {
          assert Offered(fs, |past| - 1, key, version) == (key in f.scope && f.watermark < version);
        }
      } else {
        assert version == f'.clock > f.clock;
      }
    }
  }

  lemma {:induction false} ClockIsMonotone<K(!new), D(!new), F(!new)>(fs: seq<Frame<K, D>>, fixed: D -> F)
    requires Run(fs, fixed)
    ensures forall i | 0 <= i < |fs| :: fs[i].clock <= Last(fs).clock
  {
    if |fs| > 1 {
      var past := fs[..|fs| - 1];
      ClockIsMonotone(past, fixed);
      assert forall i | 0 <= i < |past| :: fs[i] == past[i];
    }
  }

  // ---- convergence of a viewer that is in scope whenever it syncs ----

  // From frame m on, every sync that handed back a watermark had pulled this table.
  predicate CompleteSyncs<K, D>(fs: seq<Frame<K, D>>, m: nat) {
    forall i | m < i < |fs| :: fs[i].watermark == fs[i - 1].watermark || fs[i - 1].pulled
  }

  // At every pull from frame m on the key, if it has a row at all, is in the viewer's scope.
  predicate Attended<K(==), D>(fs: seq<Frame<K, D>>, m: nat, key: K) {
    forall i | m <= i < |fs| - 1 :: fs[i].pulling && key in fs[i].table ==> key in fs[i].scope
  }

  // Whatever the next delta will not offer again, the client already has.
  predicate Settled<K, D>(f: Frame<K, D>, key: K) {
    key in f.table ==>
      && (f.table[key].updatedAt <= f.watermark ==> Current(f, key))
      && (f.pulled && f.table[key].updatedAt <= f.pending ==> Current(f, key))
  }

  // A client that is settled at any moment stays so while the viewer is in scope, whatever it missed before.
  lemma {:induction false} SettledStays<K(!new), D(!new), F(!new)>(
    fs: seq<Frame<K, D>>, fixed: D -> F, m: nat, key: K)
    requires Run(fs, fixed) && m < |fs| && CompleteSyncs(fs, m) && Attended(fs, m, key)
    requires Settled(fs[m], key)
    ensures Settled(Last(fs), key)
  {
    if m == |fs| - 1 {
    } else {
      var past := fs[..|fs| - 1];
      SettledStays(past, fixed, m, key);
      EveryRunIsSound(past, fixed);
      var f, f' := Last(past), Last(fs);
      assert f == fs[|fs| - 2] && Next(f, f', fixed);
      assert f.pulling && key in f.table ==> key in f.scope;
    }
  }

  lemma AttendedRunsSettle<K(!new), D(!new), F(!new)>(fs: seq<Frame<K, D>>, fixed: D -> F, key: K)
    requires Run(fs, fixed) && CompleteSyncs(fs, 0) && Attended(fs, 0, key)
    ensures Settled(Last(fs), key)
  {
    SettledStays(fs, fixed, 0, key);
  }

  lemma PullConvergesFrom<K(!new), D(!new), F(!new)>(fs: seq<Frame<K, D>>, fixed: D -> F, m: nat, key: K)
    requires m < |fs| - 1 && Run(fs, fixed) && CompleteSyncs(fs, m) && Attended(fs, m, key)
    requires Settled(fs[m], key) && fs[|fs| - 2].pulling
    ensures key in Last(fs).mirror <==> key in Last(fs).table
    ensures key in Last(fs).table ==> Unstamped(Last(fs).mirror[key], Last(fs).table[key], fixed)
  {
    var past := fs[..|fs| - 1];
    SettledStays(past, fixed, m, key);
    EveryRunIsSound(past, fixed);
    EveryRunIsSound(fs, fixed);
    assert Last(past) == fs[|fs| - 2];
  }

  lemma PullConverges<K(!new), D(!new), F(!new)>(fs: seq<Frame<K, D>>, fixed: D -> F, key: K)
    requires |fs| > 1 && Run(fs, fixed) && CompleteSyncs(fs, 0) && Attended(fs, 0, key)
    requires fs[|fs| - 2].pulling
    ensures key in Last(fs).mirror <==> key in Last(fs).table
    ensures key in Last(fs).table ==> Unstamped(Last(fs).mirror[key], Last(fs).table[key], fixed)
  {
    PullConvergesFrom(fs, fixed, 0, key);
  }

  // ---- what the client holds, column by column, in any run ----

  // What the client holds for a key
  function Held<K(==), D>(mirror: Table<K, D>, key: K): Option<Row<D>> {
    if key in mirror then Some(mirror[key]) else None
  }

  // At frame i a pull brought the row of the key.
  predicate Sent<K(==), D>(fs: seq<Frame<K, D>>, i: nat, key: K) {
    && i + 1 < |fs|
    && fs[i].pulling
    && key in Delta(fs[i].table, fs[i].scope, fs[i].watermark)
  }

  ghost predicate LastSent<K, D>(fs: seq<Frame<K, D>>, i: nat, key: K) {
    Sent(fs, i, key) && forall j: nat | Sent(fs, j, key) :: j <= i
  }

  lemma SentBefore<K, D>(fs: seq<Frame<K, D>>, i: nat, key: K)
    requires |fs| > 1
    ensures Sent(fs, i, key) <==>
              Sent(fs[..|fs| - 1], i, key) || (i == |fs| - 2 && Sent(fs, i, key))
    ensures Sent(fs[..|fs| - 1], i, key) ==> i < |fs| - 2
  {
  }

  lemma HeldNext<K(!new), D(!new), F(!new)>(f: Frame<K, D>, f': Frame<K, D>, fixed: D -> F, key: K)
    requires Next(f, f', fixed)
    ensures Held(f'.mirror, key) ==
              if f.pulling && key in Delta(f.table, f.scope, f.watermark) then Some(f.table[key])
              else Held(f.mirror, key)
  {
  }

  // The client holds the whole row as the last pull that brought it found it, and nothing if none ever did.
  lemma {:induction false} HeldIsLastSent<K(!new), D(!new), F(!new)>(fs: seq<Frame<K, D>>, fixed: D -> F, key: K)
    requires Run(fs, fixed)
    ensures Held(Last(fs).mirror, key) == None <==> forall i: nat :: !Sent(fs, i, key)
    ensures forall i: nat | LastSent(fs, i, key) :: Held(Last(fs).mirror, key) == Some(fs[i].table[key])
  {
    if |fs| == 1 {
    } else {
      var past, now := fs[..|fs| - 1], |fs| - 2;
      HeldIsLastSent(past, fixed, key);
      HeldNext(fs[now], fs[now + 1], fixed, key);
      forall i: nat
        ensures Sent(fs, i, key) <==> Sent(past, i, key) || (i == now && Sent(fs, i, key))
        ensures Sent(past, i, key) ==> i < now
      {
        SentBefore(fs, i, key);
      }
      forall i: nat | LastSent(fs, i, key)
        ensures Held(Last(fs).mirror, key) == Some(fs[i].table[key])
      {
        if Sent(fs, now, key) {
          assert i == now;
        } else {
          assert LastSent(past, i, key);
        }
      }
    }
  }

  // ---- a row behind the watermark is frozen on the client until a stamped write ----

  lemma {:induction false} FrozenBehindWatermark<K(!new), D(!new), F(!new)>(
    fs: seq<Frame<K, D>>, fixed: D -> F, m: nat, key: K)
    requires Run(fs, fixed) && m < |fs|
    requires key in fs[m].table && fs[m].table[key].updatedAt <= fs[m].watermark
    ensures key in Last(fs).table
    ensures fs[m].table[key].updatedAt <= Last(fs).table[key].updatedAt
    ensures fs[m].watermark <= Last(fs).watermark
    ensures Last(fs).table[key].updatedAt == fs[m].table[key].updatedAt ==>
              Held(Last(fs).mirror, key) == Held(fs[m].mirror, key)
  {
    if m < |fs| - 1 {
      var past := fs[..|fs| - 1];
      FrozenBehindWatermark(past, fixed, m, key);
      EveryRunIsSound(past, fixed);
      assert Last(past) == fs[|fs| - 2] && Next(Last(past), Last(fs), fixed);
    }
  }
}
