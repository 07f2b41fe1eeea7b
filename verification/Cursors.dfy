/** Keyset cursors: back and forth, both sides of a message, and the unread suffix. */
module Cursors {
  import opened Schema
  import opened MessageLog
  import opened NewestFirst
  import opened MessageQueries

  // ---- back and forth ----

  // Above an id of the list, oldest first, and back to a cursor's page
  lemma BackAndForth(log: Log, channel: Id, cursor: Id, limit: nat)
    requires BeforeIds(log, channel, cursor, limit) != []
    ensures var page := BeforeIds(log, channel, cursor, limit);
            var oldest := page[|page| - 1];
            AfterIds(log, channel, oldest, |page| - 1) == Reverse(page[..|page| - 1])
  {
    var ids := Ids(log, channel);
    var below := Below(ids, cursor);
    var page := BeforeIds(log, channel, cursor, limit);
    var newer := Desc(ids - below);
    DescSplits(ids - below, below);
    assert (ids - below) + below == ids;
    PageEnds(newer, Desc(below), page);
    AboveIsPrefix(ids, |newer| + |page| - 1);
  }

  lemma PageEnds(newer: seq<Id>, below: seq<Id>, page: seq<Id>)
    requires page != [] && page <= below
    ensures var q, last := newer + below, |newer| + |page| - 1;
            && q[last] == page[|page| - 1]
            && Take(Reverse(q[..last]), |page| - 1) == Reverse(page[..|page| - 1])
  {
    var n := |page| - 1;
    assert (newer + below)[..|newer| + n] == newer + page[..n];
    ReverseConcat(newer, page[..n]);
    ReverseLength(page[..n]);
    TakeAll(Reverse(page[..n]), Reverse(newer));
  }

  lemma TakeAll(a: seq<Id>, b: seq<Id>)
    ensures Take(a + b, |a|) == a
  {
  }

  lemma TakeWhole(candidates: set<Id>, ids: set<Id>, limit: nat)
    requires candidates <= ids && limit >= |ids|
    ensures Take(Desc(candidates), limit) == Desc(candidates)
    ensures Take(Reverse(Desc(candidates)), limit) == Reverse(Desc(candidates))
  {
    SubsetSize(candidates, ids);
    DescSize(candidates);
    ReverseLength(Desc(candidates));
  }

  lemma DescSplitsInThree(newer: set<Id>, here: set<Id>, older: set<Id>)
    requires forall a, b | a in newer && b in here + older :: a > b
    requires forall a, b | a in here && b in older :: a > b
    ensures Desc(newer + (here + older)) == Desc(newer) + (Desc(here) + Desc(older))
  {
    DescSplits(newer, here + older);
    DescSplits(here, older);
  }

  lemma DescAroundCursor(ids: set<Id>, cursor: Id)
    ensures Desc(ids) ==
              Desc(Above(ids, cursor)) + ((if cursor in ids then [cursor] else []) + Desc(Below(ids, cursor)))
  {
    var here := if cursor in ids then {cursor} else {};
    DescSplitsInThree(Above(ids, cursor), here, Below(ids, cursor));
    DescOfOne(ids, cursor);
    assert Above(ids, cursor) + (here + Below(ids, cursor)) == ids;
  }

  // Reading everything before a cursor, the cursor's own message and everything after it, oldest first, is
  // reading the channel.
  lemma BothSidesMakeTheChannel(log: Log, channel: Id, cursor: Id, limit: nat)
    requires limit >= |Ids(log, channel)|
    ensures Reverse(BeforeIds(log, channel, cursor, limit)) +
            (if cursor in Ids(log, channel) then [cursor] else []) +
            AfterIds(log, channel, cursor, limit) == Reverse(AllIds(log, channel))
  {
    var ids := Ids(log, channel);
    var above, here, below :=
      Desc(Above(ids, cursor)), (if cursor in ids then [cursor] else []), Desc(Below(ids, cursor));
    TakeWhole(Above(ids, cursor), ids, limit);
    TakeWhole(Below(ids, cursor), ids, limit);
    DescAroundCursor(ids, cursor);
    ReverseThree(above, here, below);
    assert Reverse(here) == here;
  }

  lemma ReverseThree(a: seq<Id>, b: seq<Id>, c: seq<Id>)
    ensures Reverse(a + (b + c)) == Reverse(c) + Reverse(b) + Reverse(a)
  {
    ReverseConcat(a, b + c);
    ReverseConcat(b, c);
  }

  // ---- unread ----

  lemma UnreadSplits(log: Log, channel: Id, a: Id, b: Id)
    requires a <= b
    ensures UnreadIds(log, channel, a) ==
              UnreadIds(log, channel, b) + Desc(set id | id in Ids(log, channel) && a < id <= b)
  {
    var ids := Ids(log, channel);
    var between := set id | id in ids && a < id <= b;
    DescSplits(Above(ids, b), between);
    assert Above(ids, b) + between == Above(ids, a);
  }

  // A new message makes exactly the cursors below it one message further behind.
  lemma NewMessageIsUnreadBelow(log: Log, w: Write, cursor: Id)
    requires w.Create? && w.key !in log
    ensures var channel := w.key.0;
            |UnreadIds(Put(log, w), channel, cursor)| ==
              |UnreadIds(log, channel, cursor)| + (if cursor < w.key.1 then 1 else 0)
    ensures forall channel | channel != w.key.0 ::
              UnreadIds(Put(log, w), channel, cursor) == UnreadIds(log, channel, cursor)
  {
    var channel, id := w.key.0, w.key.1;
    IdsAfterPut(log, w, channel);
    IdsAreKeys(log, channel, id);
    OneMoreAbove(Ids(log, channel), id, cursor);
    DescSize(Above(Ids(log, channel), cursor));
    DescSize(Above(Ids(log, channel) + {id}, cursor));
    forall other | other != channel
      ensures UnreadIds(Put(log, w), other, cursor) == UnreadIds(log, other, cursor)
    {
      IdsAfterPut(log, w, other);
      assert Ids(Put(log, w), other) == Ids(log, other);
    }
  }

  lemma OneMoreAbove(ids: set<Id>, id: Id, cursor: Id)
    requires id !in ids
    ensures |Above(ids + {id}, cursor)| == |Above(ids, cursor)| + (if cursor < id then 1 else 0)
  {
    assert Above(ids + {id}, cursor) == Above(ids, cursor) + (if cursor < id then {id} else {});
  }

  lemma NothingUnreadAtNewest(log: Log, channel: Id, cursor: Id)
    ensures UnreadIds(log, channel, cursor) == [] <==> forall id | id in Ids(log, channel) :: id <= cursor
  {
    DescLists(Above(Ids(log, channel), cursor));
    if UnreadIds(log, channel, cursor) == [] {
      assert Above(Ids(log, channel), cursor) == {};
      forall id | id in Ids(log, channel) ensures id <= cursor {
        assert id !in Above(Ids(log, channel), cursor);
      }
    }
  }

  lemma IdsAfterPut(log: Log, w: Write, channel: Id)
    ensures Ids(Put(log, w), channel) == Ids(log, channel) + (if w.key.0 == channel then {w.key.1} else {})
  {
    forall id
      ensures id in Ids(Put(log, w), channel) <==>
                id in Ids(log, channel) || (w.key.0 == channel && w.key.1 == id)
    {
      IdsAreKeys(log, channel, id);
      IdsAreKeys(Put(log, w), channel, id);
    }
  }
}
