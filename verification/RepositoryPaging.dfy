/**
 * The repository's page: it fetches twice the limit, drops deleted messages and cuts to the limit, so that a
 * client walking the history by the last message it saw can stop before the history ends.
 */
module RepositoryPaging {
  import opened Schema
  import opened MessageLog
  import opened NewestFirst
  import opened MessageQueries
  import opened HistoryWalk
  import opened PageOrder
  import opened Sequences

  const TWO_63: int := 0x8000_0000_0000_0000
  const TWO_64: int := 0x1_0000_0000_0000_0000

  // Go's int is 64 bits wide here, and doubling wraps.
  predicate IsInt64(x: int) {
    -TWO_63 <= x < TWO_63
  }

  function Doubled(limit: int): (d: int)
    requires IsInt64(limit)
    ensures IsInt64(d) && (d - 2 * limit) % TWO_64 == 0
  {
    if 2 * limit >= TWO_63 then 2 * limit - TWO_64
    else if 2 * limit < -TWO_63 then 2 * limit + TWO_64
    else 2 * limit
  }

  function FetchLimit(limit: int): int
    requires IsInt64(limit)
  {
    if Doubled(limit) < limit then limit else Doubled(limit)
  }

  lemma FetchCoversLimit(limit: int)
    requires IsInt64(limit) && limit > 0
    ensures limit <= FetchLimit(limit)
  {
  }

  function DeletedIds(log: Log, channel: Id): set<Id> {
    set id | id in Ids(log, channel) && IsDeleted(RowAt(log, (channel, id)))
  }

  lemma AliveCons(id: Id, q: seq<Id>, dead: set<Id>)
    ensures Alive([id] + q, dead) == if id in dead then Alive(q, dead) else [id] + Alive(q, dead)
  {
    assert ([id] + q)[1..] == q;
  }

  lemma {:induction false} AliveConcat(a: seq<Id>, b: seq<Id>, dead: set<Id>)
    ensures Alive(a + b, dead) == Alive(a, dead) + Alive(b, dead)
  {
    if a == [] {
      assert a + b == b;
    } else {
      TailOfConcat(a, b);
      AliveConcat(a[1..], b, dead);
      Associative(if a[0] in dead then [] else [a[0]], Alive(a[1..], dead), Alive(b, dead));
    }
  }

  // The ids one page of the repository answers with
  ghost function RepositoryPage(log: Log, channel: Id, limit: int, cursor: Option<Id>): seq<Id>
    requires IsInt64(limit) && FetchLimit(limit) > 0
  {
    Take(Alive(PageIds(log, channel, FetchLimit(limit), cursor), DeletedIds(log, channel)), AtLeastOne(limit))
  }

  // for i := range smsg { if deleted { continue }; results = append(...); if len(results) >= limit { break } }
  method KeepAlive(log: Log, channel: Id, rows: seq<Entry>, ghost ids: seq<Id>, limit: int)
    returns (results: seq<Entry>)
    requires rows == Entries(log, channel, ids) && forall id | id in ids :: id in Ids(log, channel)
    ensures results == Entries(log, channel, Take(Alive(ids, DeletedIds(log, channel)), AtLeastOne(limit)))
  {
    results := [];
    ghost var dead := DeletedIds(log, channel);
    ghost var kept: seq<Id> := [];
    for i := 0 to |rows|
      invariant kept == Alive(ids[..i], dead) && |kept| < AtLeastOne(limit)
      invariant results == Entries(log, channel, kept)
    {
      assert ids[..i + 1] == ids[..i] + [ids[i]];
      AliveConcat(ids[..i], [ids[i]], dead);
      assert Alive([ids[i]], dead) == if ids[i] in dead then [] else [ids[i]];
      if IsDeleted(rows[i].row) {
        continue;
      }
      results := results + [rows[i]];
      kept := kept + [ids[i]];
      if |results| >= limit {
        assert ids == ids[..i + 1] + ids[i + 1..];
        AliveConcat(ids[..i + 1], ids[i + 1..], dead);
        return;
      }
    }
    assert ids[..|rows|] == ids;
  }

  function Candidates(log: Log, channel: Id, cursor: Option<Id>): set<Id> {
    match cursor
    case None => Ids(log, channel)
    case Some(id) => Below(Ids(log, channel), id)
  }

  // ---- what a page is, in terms of the table and of plain numbers ----

  ghost function PastCursor(log: Log, channel: Id, before: Option<Id>, after: Option<Id>): set<Id> {
    set key | key in log && key.0 == channel &&
              (match before
               case Some(cursor) => key.1 < cursor
               case None => after.Some? ==> key.1 > after.value) :: key.1
  }

  ghost function MarkedDeleted(log: Log, channel: Id): set<Id> {
    set key | key in log && key.0 == channel && log[key].deleted == Some(true) :: key.1
  }

  function IdsOf(rows: seq<Entry>): seq<Id> {
    seq(|rows|, i requires 0 <= i < |rows| => rows[i].id)
  }

  // rows are the first cut live messages among the first fetch rows past the cursor.
  ghost predicate Answers(rows: seq<Entry>, log: Log, channel: Id, before: Option<Id>, after: Option<Id>,
                          fetch: nat, cut: nat)
  {
    && (forall i | 0 <= i < |rows| :: (channel, rows[i].id) in log && log[(channel, rows[i].id)] == rows[i].row)
    && FirstLive(IdsOf(rows), PastCursor(log, channel, before, after), MarkedDeleted(log, channel),
                 before.Some? || after.None?, fetch, cut)
  }

  lemma MarkedAreDeleted(log: Log, channel: Id)
    ensures MarkedDeleted(log, channel) == DeletedIds(log, channel)
  {
    forall id
      ensures id in MarkedDeleted(log, channel) <==> id in DeletedIds(log, channel)
    {
      IdsAreKeys(log, channel, id);
      assert id in MarkedDeleted(log, channel) <==> (channel, id) in log && log[(channel, id)].deleted == Some(true);
    }
  }

  lemma PastCursorIs(log: Log, channel: Id, before: Option<Id>, after: Option<Id>)
    ensures PastCursor(log, channel, before, after) ==
              if before.None? && after.Some? then Above(Ids(log, channel), after.value)
              else Candidates(log, channel, before)
  {
    var ids := if before.None? && after.Some? then Above(Ids(log, channel), after.value)
               else Candidates(log, channel, before);
    forall id ensures id in PastCursor(log, channel, before, after) <==> id in ids {
      IdsAreKeys(log, channel, id);
      if id in ids {
        assert (channel, id) in log;
      }
    }
  }

  lemma EntriesAnswer(log: Log, channel: Id, before: Option<Id>, after: Option<Id>, fetch: nat, cut: nat, q: seq<Id>)
    requires q == if before.None? && after.Some? then Reverse(Desc(Above(Ids(log, channel), after.value)))
                  else Desc(Candidates(log, channel, before))
    ensures Answers(Entries(log, channel, Take(Alive(Take(q, fetch), DeletedIds(log, channel)), cut)),
                    log, channel, before, after, fetch, cut)
  {
    var past, dead := PastCursor(log, channel, before, after), DeletedIds(log, channel);
    PastCursorIs(log, channel, before, after);
    MarkedAreDeleted(log, channel);
    DescIsOrdered(past);
    PageIsFirstLive(q, past, dead, before.Some? || after.None?, fetch, cut);
    var page := Take(Alive(Take(q, fetch), dead), cut);
    assert IdsOf(Entries(log, channel, page)) == page;
    forall id | id in page ensures (channel, id) in log {
      assert id in past;
      IdsAreKeys(log, channel, id);
    }
  }

  method ListMessages(queries: Queries, channel: Id, before: Option<Id>, after: Option<Id>, limit: int)
    returns (results: Option<seq<Entry>>)
    requires IsInt64(limit)
    ensures FetchLimit(limit) <= 0 ==> results == None
    ensures FetchLimit(limit) > 0 && (before.Some? || after.None?) ==>
              results == Some(Entries(queries.messages, channel,
                                      RepositoryPage(queries.messages, channel, limit, before)))
    ensures FetchLimit(limit) > 0 && before.None? && after.Some? ==>
              results == Some(Entries(queries.messages, channel,
                Take(Alive(AfterIds(queries.messages, channel, after.value, FetchLimit(limit)),
                           DeletedIds(queries.messages, channel)), AtLeastOne(limit))))
    // a positive limit looks at twice as many rows, or at limit rows when twice as many is no 64-bit number
    ensures 0 < limit && 2 * limit < 0x8000_0000_0000_0000 ==>
              results.Some? && Answers(results.value, queries.messages, channel, before, after, 2 * limit, limit)
    ensures 0 < limit && 2 * limit >= 0x8000_0000_0000_0000 ==>
              results.Some? && Answers(results.value, queries.messages, channel, before, after, limit, limit)
    // a limit below 1 is refused, unless doubling it wraps to a positive number; then one message comes back
    ensures results == None <==>
              -0x4000_0000_0000_0000 <= limit <= 0 || limit == -0x8000_0000_0000_0000
    ensures limit < -0x4000_0000_0000_0000 && limit != -0x8000_0000_0000_0000 ==>
              Answers(results.value, queries.messages, channel, before, after, 2 * limit + 0x1_0000_0000_0000_0000, 1)
    // so a page is empty exactly if none of the rows it looks at is live
    ensures 0 < limit && 2 * limit < 0x8000_0000_0000_0000 ==>
              (results.value != [] <==>
                 exists id :: id in PastCursor(queries.messages, channel, before, after) &&
                              id !in MarkedDeleted(queries.messages, channel) &&
                              |Ahead(PastCursor(queries.messages, channel, before, after), id,
                                     before.Some? || after.None?)| < 2 * limit)
  {
    var log := queries.messages;
    var rows;
    ghost var ids: seq<Id> := [];
    var fetch := FetchLimit(limit);
    if before.Some? {
      rows := queries.Listmessagesbefore(channel, before.value, fetch);
      ids := if fetch > 0 then BeforeIds(log, channel, before.value, fetch) else [];
    } else if after.Some? {
      rows := queries.Listmessagesafter(channel, after.value, fetch);
      ids := if fetch > 0 then AfterIds(log, channel, after.value, fetch) else [];
    } else {
      rows := queries.Listrecentmessages(channel, fetch);
      ids := if fetch > 0 then RecentIds(log, channel, fetch) else [];
    }
    if rows == None {
      return None;
    }
    PagesAreOfTheChannel(log, channel, fetch, before, after);
    var alive := KeepAlive(log, channel, rows.value, ids, limit);
    results := Some(alive);
    EntriesAnswer(log, channel, before, after, fetch, AtLeastOne(limit),
                  if before.None? && after.Some? then Reverse(Desc(Above(Ids(log, channel), after.value)))
                  else Desc(Candidates(log, channel, before)));
    AnswerIsEmptyIff(alive, log, channel, before, after, fetch, AtLeastOne(limit));
  }

  lemma AnswerIsEmptyIff(rows: seq<Entry>, log: Log, channel: Id, before: Option<Id>, after: Option<Id>,
                         fetch: nat, cut: nat)
    requires Answers(rows, log, channel, before, after, fetch, cut) && cut > 0
    ensures var past := PastCursor(log, channel, before, after);
            rows != [] <==> exists id :: id in past && id !in MarkedDeleted(log, channel) &&
                                         |Ahead(past, id, before.Some? || after.None?)| < fetch
  {
    if rows != [] {
      assert IdsOf(rows)[0] in IdsOf(rows);
    }
  }

  lemma PagesAreOfTheChannel(log: Log, channel: Id, fetch: nat, before: Option<Id>, after: Option<Id>)
    ensures forall id | id in PageIds(log, channel, fetch, before) :: id in Ids(log, channel)
    ensures after.Some? ==>
              forall id | id in AfterIds(log, channel, after.value, fetch) :: id in Ids(log, channel)
  {
    var ids := Ids(log, channel);
    match before {
      case None => TakenFrom(ids, fetch);
      case Some(cursor) => TakenFrom(Below(ids, cursor), fetch);
    }
    if after.Some? {
      TakenFrom(Above(ids, after.value), fetch);
    }
  }

  lemma TakenFrom(ids: set<Id>, limit: nat)
    ensures forall id | id in Take(Desc(ids), limit) :: id in ids
    ensures forall id | id in Take(Reverse(Desc(ids)), limit) :: id in ids
  {
    DescLists(ids);
    ReverseMembers(Desc(ids));
    forall id | id in Take(Reverse(Desc(ids)), limit) ensures id in ids {
      assert id in Reverse(Desc(ids));
    }
  }

  lemma {:induction false} ReverseMembers(q: seq<Id>)
    ensures forall id :: id in Reverse(q) <==> id in q
  {
    if q == [] {
    } else {
      ReverseMembers(q[1..]);
    }
  }

  // ---- the walk, on the newest-first list of the channel ----

  // How many rows of q a page consumes, up to and including the last message it returns
  function Consumed(q: seq<Id>, dead: set<Id>, fetch: nat, limit: nat): nat {
    if q == [] || fetch == 0 || limit == 0 then 0
    else if q[0] in dead then
      var c := Consumed(q[1..], dead, fetch - 1, limit);
      if c == 0 then 0 else c + 1
    else 1 + Consumed(q[1..], dead, fetch - 1, limit - 1)
  }

  lemma TakeCons(q: seq<Id>, n: nat)
    requires q != [] && n > 0
    ensures Take(q, n) == [q[0]] + Take(q[1..], n - 1)
  {
  }

  lemma PrefixCons(q: seq<Id>, c: nat)
    requires c < |q|
    ensures q[..c + 1] == [q[0]] + q[1..][..c]
  {
  }

  // The page Take(Alive(Take(q, fetch))) is what is alive among the rows consumed.
  predicate IsPage(q: seq<Id>, dead: set<Id>, fetch: nat, limit: nat, c: nat) {
    && c <= |q| && c <= fetch
    && Alive(q[..c], dead) == Take(Alive(Take(q, fetch), dead), limit)
    && (c == 0 <==> Alive(q[..c], dead) == [])
    && (c > 0 ==> q[c - 1] !in dead && q[c - 1] == Alive(q[..c], dead)[|Alive(q[..c], dead)| - 1])
  }

  lemma PageAfterDeleted(q: seq<Id>, dead: set<Id>, fetch: nat, limit: nat, c: nat)
    requires q != [] && fetch > 0 && q[0] in dead && IsPage(q[1..], dead, fetch - 1, limit, c)
    ensures IsPage(q, dead, fetch, limit, if c == 0 then 0 else c + 1)
  {
    TakeCons(q, fetch);
    AliveCons(q[0], Take(q[1..], fetch - 1), dead);
    PrefixCons(q, c);
    AliveCons(q[0], q[1..][..c], dead);
  }

  lemma PageAfterAlive(q: seq<Id>, dead: set<Id>, fetch: nat, limit: nat, c: nat)
    requires q != [] && fetch > 0 && limit > 0 && q[0] !in dead && IsPage(q[1..], dead, fetch - 1, limit - 1, c)
    ensures IsPage(q, dead, fetch, limit, c + 1)
  {
    TakeCons(q, fetch);
    AliveCons(q[0], Take(q[1..], fetch - 1), dead);
    TakeCons([q[0]] + Alive(Take(q[1..], fetch - 1), dead), limit);
    PrefixCons(q, c);
    AliveCons(q[0], q[1..][..c], dead);
  }

  lemma {:induction false} ConsumedIsThePage(q: seq<Id>, dead: set<Id>, fetch: nat, limit: nat)
    ensures IsPage(q, dead, fetch, limit, Consumed(q, dead, fetch, limit))
  {
    if q == [] || fetch == 0 || limit == 0 {
      assert q[..0] == [];
    } else if q[0] in dead {
      ConsumedIsThePage(q[1..], dead, fetch - 1, limit);
      PageAfterDeleted(q, dead, fetch, limit, Consumed(q[1..], dead, fetch - 1, limit));
    } else {
      ConsumedIsThePage(q[1..], dead, fetch - 1, limit - 1);
      PageAfterAlive(q, dead, fetch, limit, Consumed(q[1..], dead, fetch - 1, limit - 1));
    }
  }

  function WalkRows(q: seq<Id>, dead: set<Id>, fetch: nat, limit: nat): seq<Id> {
    ConsumedIsThePage(q, dead, fetch, limit);
    var c := Consumed(q, dead, fetch, limit);
    if c == 0 then [] else Alive(q[..c], dead) + WalkRows(q[c..], dead, fetch, limit)
  }

  // From row i on, a whole fetch of deleted messages with a live one somewhere behind it
  predicate WideGap(q: seq<Id>, dead: set<Id>, fetch: nat, i: nat) {
    && i + fetch <= |q|
    && (forall j | i <= j < i + fetch :: q[j] in dead)
    && (exists j | i + fetch <= j < |q| :: q[j] !in dead)
  }

  lemma {:induction false} NoneAlive(q: seq<Id>, dead: set<Id>)
    ensures Alive(q, dead) == [] <==> forall j | 0 <= j < |q| :: q[j] in dead
  {
    if q == [] {
    } else {
      NoneAlive(q[1..], dead);
      assert forall j | 0 < j < |q| :: q[j] == q[1..][j - 1];
    }
  }

  predicate Gapless(q: seq<Id>, dead: set<Id>, fetch: nat) {
    forall i: nat | i < |q| :: !WideGap(q, dead, fetch, i)
  }

  lemma AliveAt(q: seq<Id>, dead: set<Id>, c: nat)
    requires c <= |q|
    ensures Alive(q, dead) == Alive(q[..c], dead) + Alive(q[c..], dead)
  {
    assert q == q[..c] + q[c..];
    AliveConcat(q[..c], q[c..], dead);
  }

  // The walk never invents, repeats or reorders, and it misses nothing exactly when there is no wide gap.
  lemma {:induction false} WalkRowsIff(q: seq<Id>, dead: set<Id>, fetch: nat, limit: nat)
    requires 0 < limit <= fetch
    ensures WalkRows(q, dead, fetch, limit) <= Alive(q, dead)
    ensures WalkRows(q, dead, fetch, limit) == Alive(q, dead) <==> Gapless(q, dead, fetch)
  {
    ConsumedIsThePage(q, dead, fetch, limit);
    var c := Consumed(q, dead, fetch, limit);
    if c == 0 {
      EmptyPage(q, dead, fetch, limit);
    } else {
      AliveAt(q, dead, c);
      var page, rest := Alive(q[..c], dead), q[c..];
      WalkRowsIff(rest, dead, fetch, limit);
      SamePrefix(page, WalkRows(rest, dead, fetch, limit), Alive(rest, dead));
      GapsAfterPage(q, dead, fetch, c);
    }
  }

  lemma SamePrefix(page: seq<Id>, a: seq<Id>, b: seq<Id>)
    requires a <= b
    ensures page + a <= page + b
    ensures page + a == page + b <==> a == b
  {
    if page + a == page + b {
      assert (page + a)[|page|..] == a && (page + b)[|page|..] == b;
    }
  }

  lemma EmptyPage(q: seq<Id>, dead: set<Id>, fetch: nat, limit: nat)
    requires 0 < limit <= fetch && Consumed(q, dead, fetch, limit) == 0
    ensures Alive(q, dead) == [] <==> Gapless(q, dead, fetch)
  {
    ConsumedIsThePage(q, dead, fetch, limit);
    NoneAlive(Take(q, fetch), dead);
    NoneAlive(q, dead);
    if Alive(q, dead) != [] {
      var j :| 0 <= j < |q| && q[j] !in dead;
      assert forall k | 0 <= k < fetch && k < |q| :: Take(q, fetch)[k] == q[k];
      assert WideGap(q, dead, fetch, 0);
    }
  }

  lemma GapsAfterPage(q: seq<Id>, dead: set<Id>, fetch: nat, c: nat)
    requires 0 < c <= |q| && c <= fetch && q[c - 1] !in dead
    ensures Gapless(q, dead, fetch) <==> Gapless(q[c..], dead, fetch)
  {
    forall i: nat | WideGap(q, dead, fetch, i)
      ensures i >= c && WideGap(q[c..], dead, fetch, i - c)
    {
      assert i >= c;
      var j :| i + fetch <= j < |q| && q[j] !in dead;
      assert q[c..][j - c] !in dead;
    }
    forall i: nat | WideGap(q[c..], dead, fetch, i)
      ensures WideGap(q, dead, fetch, i + c)
    {
      var j :| i + fetch <= j < |q[c..]| && q[c..][j] !in dead;
      assert q[j + c] !in dead;
      assert forall k | i + c <= k < i + c + fetch :: q[k] == q[c..][k - c];
    }
  }

  // ---- the walk of a client, by the last message it saw ----

  ghost function RepositoryWalk(log: Log, channel: Id, limit: int, cursor: Option<Id>): seq<Id>
    requires IsInt64(limit) && limit > 0
    decreases |Candidates(log, channel, cursor)|
  {
    var page := RepositoryPage(log, channel, limit, cursor);
    if page == [] then []
    else
      NextPage(log, channel, limit, cursor);
      page + RepositoryWalk(log, channel, limit, Some(page[|page| - 1]))
  }

  lemma NextPage(log: Log, channel: Id, limit: int, cursor: Option<Id>)
    requires IsInt64(limit) && limit > 0 && RepositoryPage(log, channel, limit, cursor) != []
    ensures var candidates, dead := Candidates(log, channel, cursor), DeletedIds(log, channel);
            var page, c := RepositoryPage(log, channel, limit, cursor),
                           Consumed(Desc(candidates), dead, FetchLimit(limit), limit);
            && 0 < c <= |Desc(candidates)|
            && page == Alive(Desc(candidates)[..c], dead)
            && page[|page| - 1] == Desc(candidates)[c - 1]
            && Desc(Candidates(log, channel, Some(page[|page| - 1]))) == Desc(candidates)[c..]
            && |Candidates(log, channel, Some(page[|page| - 1]))| < |candidates|
  {
    var candidates, dead := Candidates(log, channel, cursor), DeletedIds(log, channel);
    ConsumedIsThePage(Desc(candidates), dead, FetchLimit(limit), limit);
    var c := Consumed(Desc(candidates), dead, FetchLimit(limit), limit);
    CutAt(candidates, c);
    CandidatesBelow(log, channel, cursor, Desc(candidates)[c - 1]);
  }

  lemma CutAt(ids: set<Id>, c: nat)
    requires 0 < c <= |Desc(ids)|
    ensures var last := Desc(ids)[c - 1];
            last in ids && Desc(Below(ids, last)) == Desc(ids)[c..] && |Below(ids, last)| < |ids|
  {
    BelowIsSuffix(ids, c - 1);
    DescLists(ids);
    DescSize(Below(ids, Desc(ids)[c - 1]));
  }

  lemma CandidatesBelow(log: Log, channel: Id, cursor: Option<Id>, last: Id)
    requires last in Candidates(log, channel, cursor)
    ensures Below(Candidates(log, channel, cursor), last) == Candidates(log, channel, Some(last))
  {
  }

  lemma {:induction false} WalkFollowsRows(log: Log, channel: Id, limit: int, cursor: Option<Id>)
    requires IsInt64(limit) && limit > 0
    ensures RepositoryWalk(log, channel, limit, cursor) ==
              WalkRows(Desc(Candidates(log, channel, cursor)), DeletedIds(log, channel), FetchLimit(limit), limit)
    decreases |Candidates(log, channel, cursor)|
  {
    var page := RepositoryPage(log, channel, limit, cursor);
    ConsumedIsThePage(Desc(Candidates(log, channel, cursor)), DeletedIds(log, channel), FetchLimit(limit), limit);
    if page != [] {
      NextPage(log, channel, limit, cursor);
      WalkFollowsRows(log, channel, limit, Some(page[|page| - 1]));
    }
  }

  // Walking a channel through the repository returns live messages only, newest first, and returns all of them
  // exactly when nowhere in the channel a whole fetch of deleted messages lies before a live one.
  lemma RepositoryWalkIsCompleteIff(log: Log, channel: Id, limit: int)
    requires IsInt64(limit) && limit > 0
    ensures var q, dead := AllIds(log, channel), DeletedIds(log, channel);
            && RepositoryWalk(log, channel, limit, None) <= Alive(q, dead)
            && (RepositoryWalk(log, channel, limit, None) == Alive(q, dead) <==>
                  Gapless(q, dead, FetchLimit(limit)))
  {
    FetchCoversLimit(limit);
    WalkFollowsRows(log, channel, limit, None);
    WalkRowsIff(AllIds(log, channel), DeletedIds(log, channel), FetchLimit(limit), limit);
  }

  function Sent(channel: Id, id: Id): Write {
    Create((channel, id), 1, "hello", 0, 0, false, id, 0, 0, 0, {})
  }

  lemma PutSnoc(log: Log, writes: seq<Write>, w: Write)
    ensures PutAll(log, writes + [w]) == Put(PutAll(log, writes), w)
  {
    assert (writes + [w])[..|writes|] == writes;
  }

  const THREE_SENT := [Sent(1, 1), Sent(1, 2), Sent(1, 3)]
  const TWO_DELETED := THREE_SENT + [Delete((1, 3), 4)] + [Delete((1, 2), 5)]

  lemma ThreeSent()
    ensures PutAll(map[], THREE_SENT) ==
              map[(1, 1) := WriteRow(BLANK, Sent(1, 1)), (1, 2) := WriteRow(BLANK, Sent(1, 2)),
                  (1, 3) := WriteRow(BLANK, Sent(1, 3))]
  {
    PutSnoc(map[], [], Sent(1, 1));
    PutSnoc(map[], [Sent(1, 1)], Sent(1, 2));
    PutSnoc(map[], [Sent(1, 1), Sent(1, 2)], Sent(1, 3));
    assert [] + [Sent(1, 1)] == [Sent(1, 1)];
    assert [Sent(1, 1)] + [Sent(1, 2)] == [Sent(1, 1), Sent(1, 2)];
    assert [Sent(1, 1), Sent(1, 2)] + [Sent(1, 3)] == THREE_SENT;
  }

  lemma TwoDeleted()
    ensures var log := PutAll(map[], TWO_DELETED);
            && log.Keys == {(1, 1), (1, 2), (1, 3)}
            && !IsDeleted(log[(1, 1)]) && IsDeleted(log[(1, 2)]) && IsDeleted(log[(1, 3)])
  {
    ThreeSent();
    PutSnoc(map[], THREE_SENT, Delete((1, 3), 4));
    PutSnoc(map[], THREE_SENT + [Delete((1, 3), 4)], Delete((1, 2), 5));
  }

  lemma IdsOfTwoDeleted()
    ensures Ids(PutAll(map[], TWO_DELETED), 1) == {1, 2, 3}
    ensures DeletedIds(PutAll(map[], TWO_DELETED), 1) == {2, 3}
  {
    TwoDeleted();
    var log := PutAll(map[], TWO_DELETED);
    forall id ensures id in Ids(log, 1) <==> id in {1, 2, 3} {
      IdsAreKeys(log, 1, id);
    }
  }

  lemma AliveOfThree()
    ensures Desc({1, 2, 3}) == [3, 2, 1]
    ensures Alive([3, 2, 1], {2, 3}) == [1] && Alive([3, 2], {2, 3}) == []
  {
    ListIsDesc([3, 2, 1], {1, 2, 3});
    NoneAlive([3, 2], {2, 3});
    AliveConcat([3, 2], [1], {2, 3});
    AliveCons(1, [], {2, 3});
    assert [3, 2] + [1] == [3, 2, 1] && [1] + [] == [1];
  }

  lemma StopsAtTwoDeleted(log: Log)
    requires Ids(log, 1) == {1, 2, 3} && DeletedIds(log, 1) == {2, 3}
    ensures Alive(AllIds(log, 1), DeletedIds(log, 1)) == [1]
    ensures RepositoryWalk(log, 1, 1, None) == []
  {
    AliveOfThree();
    assert RepositoryPage(log, 1, 1, None) == Take(Alive(Take([3, 2, 1], 2), {2, 3}), 1);
  }

  // Three messages, the two newest deleted: a walk with limit 1 stops before the live one.
  lemma WalkCanMissALiveMessage()
    ensures var log := PutAll(map[], TWO_DELETED);
            && Alive(AllIds(log, 1), DeletedIds(log, 1)) == [1]
            && RepositoryWalk(log, 1, 1, None) == []
  {
    IdsOfTwoDeleted();
    StopsAtTwoDeleted(PutAll(map[], TWO_DELETED));
  }

  const ONE_OF_TWO := [Sent(1, 1), Sent(1, 2), Delete((1, 2), 3)]

  lemma OneOfTwo()
    ensures Ids(PutAll(map[], ONE_OF_TWO), 1) == {1, 2} && DeletedIds(PutAll(map[], ONE_OF_TWO), 1) == {2}
  {
    PutSnoc(map[], [], Sent(1, 1));
    PutSnoc(map[], [Sent(1, 1)], Sent(1, 2));
    PutSnoc(map[], [Sent(1, 1), Sent(1, 2)], Delete((1, 2), 3));
    assert [] + [Sent(1, 1)] == [Sent(1, 1)];
    assert [Sent(1, 1)] + [Sent(1, 2)] == [Sent(1, 1), Sent(1, 2)];
    assert [Sent(1, 1), Sent(1, 2)] + [Delete((1, 2), 3)] == ONE_OF_TWO;
    var log := PutAll(map[], ONE_OF_TWO);
    assert log.Keys == {(1, 1), (1, 2)} && !IsDeleted(log[(1, 1)]) && IsDeleted(log[(1, 2)]);
    forall id ensures id in Ids(log, 1) <==> id in {1, 2} {
      IdsAreKeys(log, 1, id);
    }
  }

  // Two messages, the newer one deleted: a page with limit 1 looks past it and returns the live one.
  lemma PageLooksPastADeletedMessage()
    ensures RepositoryPage(PutAll(map[], ONE_OF_TWO), 1, 1, None) == [1]
  {
    OneOfTwo();
    ListIsDesc([2, 1], {1, 2});
    AliveCons(2, [1], {2});
    AliveCons(1, [], {2});
    assert [2] + [1] == [2, 1] && [1] + [] == [1];
  }
}
