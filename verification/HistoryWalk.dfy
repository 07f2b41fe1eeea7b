/** Reading a channel's whole history page by page, while other clients keep writing. */
module HistoryWalk {
  import opened Schema
  import opened MessageLog
  import opened NewestFirst
  import opened MessageQueries
  import opened Cursors

  // Listrecentmessages for the first page, Listmessagesbefore the last id seen for the others
  ghost function PageIds(log: Log, channel: Id, limit: nat, cursor: Option<Id>): seq<Id> {
    match cursor
    case None => RecentIds(log, channel, limit)
    case Some(id) => BeforeIds(log, channel, id, limit)
  }

  // The ids a client collects when logs[i] is the table at its i-th page, until a page comes back empty
  ghost function Walk(logs: seq<Log>, channel: Id, limit: nat, cursor: Option<Id>): seq<Id> {
    if logs == [] then []
    else
      var page := PageIds(logs[0], channel, limit, cursor);
      if page == [] then []
      else page + Walk(logs[1..], channel, limit, Some(page[|page| - 1]))
  }

  // Writes to other channels, to messages of the starting list, or to ids newer than all of it
  predicate Harmless(w: Write, channel: Id, start: set<Id>) {
    w.key.0 == channel ==> w.key.1 in start || (forall id | id in start :: w.key.1 > id)
  }

  ghost predicate Interfered(logs: seq<Log>, writes: seq<seq<Write>>, channel: Id) {
    && logs != [] && |writes| == |logs| - 1
    && (forall i | 0 <= i < |writes| :: logs[i + 1] == PutAll(logs[i], writes[i]))
    && (forall i, w | 0 <= i < |writes| && w in writes[i] :: Harmless(w, channel, Ids(logs[0], channel)))
  }

  // The starting messages are all still there, and anything else is newer.
  predicate Keeps(log: Log, channel: Id, start: set<Id>) {
    && start <= Ids(log, channel)
    && forall id, was | id in Ids(log, channel) && id !in start && was in start :: id > was
  }

  lemma HarmlessWriteKeeps(log: Log, w: Write, channel: Id, start: set<Id>)
    requires Keeps(log, channel, start) && Harmless(w, channel, start)
    ensures Keeps(Put(log, w), channel, start)
  {
    IdsAfterPut(log, w, channel);
  }

  lemma {:induction false} HarmlessWritesKeep(log: Log, writes: seq<Write>, channel: Id, start: set<Id>)
    requires Keeps(log, channel, start) && forall w | w in writes :: Harmless(w, channel, start)
    ensures Keeps(PutAll(log, writes), channel, start)
  {
    if writes == [] {
    } else {
      var before, w := writes[..|writes| - 1], writes[|writes| - 1];
      HarmlessWritesKeep(log, before, channel, start);
      HarmlessWriteKeeps(PutAll(log, before), w, channel, start);
    }
  }

  lemma {:induction false} EveryPageKeeps(logs: seq<Log>, writes: seq<seq<Write>>, channel: Id, i: nat)
    requires Interfered(logs, writes, channel) && i < |logs|
    ensures Keeps(logs[i], channel, Ids(logs[0], channel))
  {
    if i > 0 {
      EveryPageKeeps(logs, writes, channel, i - 1);
      HarmlessWritesKeep(logs[i - 1], writes[i - 1], channel, Ids(logs[0], channel));
    }
  }

  lemma BelowKept(log: Log, channel: Id, start: set<Id>, cursor: Id)
    requires Keeps(log, channel, start) && cursor in start
    ensures Below(Ids(log, channel), cursor) == Below(start, cursor)
  {
  }

  // What one page leaves of a set of ids
  lemma OnePage(ids: set<Id>, limit: nat)
    requires limit > 0 && ids != {}
    ensures var page := Take(Desc(ids), limit);
            && page != [] && page[|page| - 1] in ids
            && Desc(ids) == page + Desc(Below(ids, page[|page| - 1]))
            && |Below(ids, page[|page| - 1])| == if |ids| <= limit then 0 else |ids| - limit
  {
    var page := Take(Desc(ids), limit);
    DescLists(ids);
    BelowIsSuffix(ids, |page| - 1);
    DescSize(Below(ids, page[|page| - 1]));
  }

  lemma AfterOnePage(start: set<Id>, cursor: Id, limit: nat)
    requires limit > 0 && Below(start, cursor) != {}
    ensures var below := Below(start, cursor);
            var page := Take(Desc(below), limit);
            && page != [] && page[|page| - 1] in start
            && Desc(below) == page + Desc(Below(start, page[|page| - 1]))
            && |Below(start, page[|page| - 1])| == if |below| <= limit then 0 else |below| - limit
  {
    var below := Below(start, cursor);
    OnePage(below, limit);
    var last := Take(Desc(below), limit)[|Take(Desc(below), limit)| - 1];
    assert Below(below, last) == Below(start, last);
  }

  lemma {:induction false} WalkBelow(logs: seq<Log>, channel: Id, limit: nat, start: set<Id>, cursor: Id)
    requires limit > 0 && cursor in start && |logs| * limit >= |Below(start, cursor)|
    requires forall log | log in logs :: Keeps(log, channel, start)
    ensures Walk(logs, channel, limit, Some(cursor)) == Desc(Below(start, cursor))
  {
    if Below(start, cursor) == {} {
      if logs != [] {
        BelowKept(logs[0], channel, start, cursor);
      }
    } else {
      BelowKept(logs[0], channel, start, cursor);
      AfterOnePage(start, cursor, limit);
      var page := PageIds(logs[0], channel, limit, Some(cursor));
      OnePageLess(|logs|, limit, |Below(start, cursor)|);
      WalkBelow(logs[1..], channel, limit, start, page[|page| - 1]);
    }
  }

  lemma OnePageLess(pages: nat, limit: nat, rows: nat)
    requires limit > 0 && rows > 0 && pages * limit >= rows
    ensures pages > 0 && (pages - 1) * limit >= (if rows <= limit then 0 else rows - limit)
  {
    assert (pages - 1) * limit == pages * limit - limit;
  }

  // Enough pages yield every message present at the start, once, newest first, whatever the harmless writes
  // between the pages were.
  lemma WalkYieldsTheStart(logs: seq<Log>, writes: seq<seq<Write>>, channel: Id, limit: nat)
    requires limit > 0 && Interfered(logs, writes, channel)
    requires |logs| * limit >= |Ids(logs[0], channel)|
    ensures Walk(logs, channel, limit, None) == AllIds(logs[0], channel)
  {
    var start := Ids(logs[0], channel);
    if start == {} {
      DescSize(start);
    } else {
      forall log | log in logs ensures Keeps(log, channel, start) {
        var i :| 0 <= i < |logs| && logs[i] == log;
        EveryPageKeeps(logs, writes, channel, i);
      }
      OnePage(start, limit);
      OnePageLess(|logs|, limit, |start|);
      var page := RecentIds(logs[0], channel, limit);
      WalkBelow(logs[1..], channel, limit, start, page[|page| - 1]);
    }
  }

  // The walk then stops: before the oldest starting message there is nothing.
  lemma WalkStops(logs: seq<Log>, writes: seq<seq<Write>>, channel: Id, limit: nat, i: nat)
    requires Interfered(logs, writes, channel) && i < |logs| && AllIds(logs[0], channel) != []
    ensures var all := AllIds(logs[0], channel); PageIds(logs[i], channel, limit, Some(all[|all| - 1])) == []
  {
    var start, all := Ids(logs[0], channel), AllIds(logs[0], channel);
    EveryPageKeeps(logs, writes, channel, i);
    if start == {} {
      DescSize(start);
    } else {
      NothingBelowOldest(start);
      BelowKept(logs[i], channel, start, all[|all| - 1]);
      DescSize({});
    }
  }

  lemma NothingBelowOldest(start: set<Id>)
    requires start != {}
    ensures |Desc(start)| > 0 && Desc(start)[|Desc(start)| - 1] in start
    ensures Below(start, Desc(start)[|Desc(start)| - 1]) == {}
  {
    DescLists(start);
    BelowIsSuffix(start, |Desc(start)| - 1);
    DescSize(Below(start, Desc(start)[|Desc(start)| - 1]));
  }
}
