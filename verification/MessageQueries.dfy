/** The message queries: writes that change the table in place, and reads that collect rows in order. */
module MessageQueries {
  import opened Schema
  import opened MessageLog
  import opened NewestFirst

  datatype Entry = Entry(id: Id, row: Message)

  function Entries(log: Log, channel: Id, ids: seq<Id>): seq<Entry> {
    seq(|ids|, i requires 0 <= i < |ids| => Entry(ids[i], RowAt(log, (channel, ids[i]))))
  }

  // ---- what each read returns, as ids ----

  ghost function RecentIds(log: Log, channel: Id, limit: nat): seq<Id> {
    Take(Desc(Ids(log, channel)), limit)
  }

  ghost function BeforeIds(log: Log, channel: Id, cursor: Id, limit: nat): seq<Id> {
    Take(Desc(Below(Ids(log, channel), cursor)), limit)
  }

  ghost function AfterIds(log: Log, channel: Id, cursor: Id, limit: nat): seq<Id> {
    Take(Reverse(Desc(Above(Ids(log, channel), cursor))), limit)
  }

  ghost function UnreadIds(log: Log, channel: Id, cursor: Id): seq<Id> {
    Desc(Above(Ids(log, channel), cursor))
  }

  ghost function AllIds(log: Log, channel: Id): seq<Id> {
    Desc(Ids(log, channel))
  }

  function SinceIds(log: Log, channel: Id, since: Time): set<Id> {
    set id | id in Ids(log, channel) && RowAt(log, (channel, id)).updatedAt.Some? &&
             RowAt(log, (channel, id)).updatedAt.value > since
  }

  lemma OldestEndsDesc(rest: set<Id>, id: Id)
    requires id in rest && forall other | other in rest :: id <= other
    ensures Desc(rest) == Desc(rest - {id}) + [id]
  {
    DescSplits(rest - {id}, {id});
    assert rest - {id} + {id} == rest;
    DescStep(id, {id});
    assert {id} - {id} == {};
  }

  lemma EntriesSnoc(log: Log, channel: Id, ids: seq<Id>, id: Id)
    ensures Entries(log, channel, ids + [id]) ==
              Entries(log, channel, ids) + [Entry(id, RowAt(log, (channel, id)))]
  {
  }

  lemma TakeSplit<T>(taken: seq<T>, first: T, others: seq<T>, all: seq<T>, limit: nat)
    requires |taken| < limit && taken + Take([first] + others, limit - |taken|) == all
    ensures taken + [first] + Take(others, limit - |taken| - 1) == all
  {
    assert Take([first] + others, limit - |taken|) == [first] + Take(others, limit - |taken| - 1);
  }

  // Rows of a candidate set, newest first, up to LIMIT
  method CollectNewestFirst(log: Log, channel: Id, candidates: set<Id>, limit: nat) returns (items: seq<Entry>)
    ensures items == Entries(log, channel, Take(Desc(candidates), limit))
  {
    items := [];
    var rest := candidates;
    ghost var taken: seq<Id> := [];
    while rest != {} && |items| < limit
      invariant |taken| <= limit && items == Entries(log, channel, taken)
      invariant taken + Take(Desc(rest), limit - |taken|) == Take(Desc(candidates), limit)
      decreases rest
    {
      var id := Newest(rest);
      DescStep(id, rest);
      TakeSplit(taken, id, Desc(rest - {id}), Take(Desc(candidates), limit), limit);
      EntriesSnoc(log, channel, taken, id);
      items := items + [Entry(id, RowAt(log, (channel, id)))];
      taken := taken + [id];
      rest := rest - {id};
    }
  }

  method CollectOldestFirst(log: Log, channel: Id, candidates: set<Id>, limit: nat) returns (items: seq<Entry>)
    ensures items == Entries(log, channel, Take(Reverse(Desc(candidates)), limit))
  {
    items := [];
    var rest := candidates;
    ghost var taken: seq<Id> := [];
    while rest != {} && |items| < limit
      invariant |taken| <= limit && items == Entries(log, channel, taken)
      invariant taken + Take(Reverse(Desc(rest)), limit - |taken|) == Take(Reverse(Desc(candidates)), limit)
      decreases rest
    {
      var id := Oldest(rest);
      OldestEndsDesc(rest, id);
      ReverseConcat(Desc(rest - {id}), [id]);
      assert Reverse([id]) == [id];
      TakeSplit(taken, id, Reverse(Desc(rest - {id})), Take(Reverse(Desc(candidates)), limit), limit);
      EntriesSnoc(log, channel, taken, id);
      items := items + [Entry(id, RowAt(log, (channel, id)))];
      taken := taken + [id];
      rest := rest - {id};
    }
  }

  class Queries {
    var messages: Log

    constructor ()
      ensures messages == map[]
    {
      messages := map[];
    }

    method Createmessage(channel: Id, id: Id, author: Id, content: string, kind: int, replyTo: Id, pinned: bool,
                         createdAt: Time, forwardedChannel: Id, forwardedMessage: Id, forwardedAuthor: Id,
                         mentions: set<Id>)
      modifies this
      ensures messages == Put(old(messages), Create((channel, id), author, content, kind, replyTo, pinned, createdAt,
                                                    forwardedChannel, forwardedMessage, forwardedAuthor, mentions))
      ensures var key, was := (channel, id), old(messages);
              messages == was[key := Message(
                author := Some(author), content := Some(content), kind := Some(kind), replyTo := Some(replyTo),
                pinned := Some(pinned), createdAt := Some(createdAt), forwardedChannel := Some(forwardedChannel),
                forwardedMessage := Some(forwardedMessage), forwardedAuthor := Some(forwardedAuthor),
                mentions := mentions, deleted := if key in was then was[key].deleted else None,
                editedAt := if key in was then was[key].editedAt else None,
                updatedAt := if key in was then was[key].updatedAt else None)]
    {
      var key := (channel, id);
      if key !in messages {
        messages := messages[key := BLANK];
      }
      messages := messages[key := messages[key].(
        author := Some(author), content := Some(content), kind := Some(kind), replyTo := Some(replyTo),
        pinned := Some(pinned), createdAt := Some(createdAt), forwardedChannel := Some(forwardedChannel),
        forwardedMessage := Some(forwardedMessage), forwardedAuthor := Some(forwardedAuthor), mentions := mentions)];
    }

    method Updatemessagecontent(content: string, editedAt: Time, channel: Id, id: Id)
      modifies this
      ensures messages == Put(old(messages), EditContent((channel, id), content, editedAt))
      ensures var key, was := (channel, id), old(messages);
              && messages.Keys == was.Keys + {key}
              && (forall other | other in was && other != key :: messages[other] == was[other])
              && messages[key] == (if key in was then was[key] else BLANK).(
                   content := Some(content), editedAt := Some(editedAt))
    {
      var key := (channel, id);
      if key !in messages {
        messages := messages[key := BLANK];
      }
      messages := messages[key := messages[key].(content := Some(content), editedAt := Some(editedAt))];
    }

    method Deletemessage(updatedAt: Time, channel: Id, id: Id)
      modifies this
      ensures messages == Put(old(messages), Delete((channel, id), updatedAt))
      ensures var key, was := (channel, id), old(messages);
              && messages.Keys == was.Keys + {key}
              && (forall other | other in was && other != key :: messages[other] == was[other])
              && messages[key] == (if key in was then was[key] else BLANK).(
                   deleted := Some(true), updatedAt := Some(updatedAt))
    {
      var key := (channel, id);
      if key !in messages {
        messages := messages[key := BLANK];
      }
      messages := messages[key := messages[key].(deleted := Some(true), updatedAt := Some(updatedAt))];
    }

    method Setpinned(pinned: bool, channel: Id, id: Id)
      modifies this
      ensures messages == Put(old(messages), Pin((channel, id), pinned))
      ensures var key, was := (channel, id), old(messages);
              && messages.Keys == was.Keys + {key}
              && (forall other | other in was && other != key :: messages[other] == was[other])
              && messages[key] == (if key in was then was[key] else BLANK).(
                   pinned := Some(pinned))
    {
      var key := (channel, id);
      if key !in messages {
        messages := messages[key := BLANK];
      }
      messages := messages[key := messages[key].(pinned := Some(pinned))];
    }

    // LIMIT must be positive; CQL refuses the query otherwise.
    method Listrecentmessages(channel: Id, limit: int) returns (items: Option<seq<Entry>>)
      ensures items == if limit <= 0 then None
                       else Some(Entries(messages, channel, RecentIds(messages, channel, limit)))
    {
      if limit <= 0 {
        return None;
      }
      var rows := CollectNewestFirst(messages, channel, Ids(messages, channel), limit);
      items := Some(rows);
    }

    method Listmessagesbefore(channel: Id, id: Id, limit: int) returns (items: Option<seq<Entry>>)
      ensures items == if limit <= 0 then None
                       else Some(Entries(messages, channel, BeforeIds(messages, channel, id, limit)))
    {
      if limit <= 0 {
        return None;
      }
      var rows := CollectNewestFirst(messages, channel, Below(Ids(messages, channel), id), limit);
      items := Some(rows);
    }

    method Listmessagesafter(channel: Id, id: Id, limit: int) returns (items: Option<seq<Entry>>)
      ensures items == if limit <= 0 then None
                       else Some(Entries(messages, channel, AfterIds(messages, channel, id, limit)))
    {
      if limit <= 0 {
        return None;
      }
      var rows := CollectOldestFirst(messages, channel, Above(Ids(messages, channel), id), limit);
      items := Some(rows);
    }

    method Countunreadmessages(channel: Id, id: Id) returns (items: seq<Entry>)
      ensures items == Entries(messages, channel, UnreadIds(messages, channel, id))
    {
      var candidates := Above(Ids(messages, channel), id);
      DescLists(candidates);
      items := CollectNewestFirst(messages, channel, candidates, |candidates|);
    }

    method Countallmessages(channel: Id) returns (items: seq<Entry>)
      ensures items == Entries(messages, channel, AllIds(messages, channel))
    {
      var candidates := Ids(messages, channel);
      DescLists(candidates);
      items := CollectNewestFirst(messages, channel, candidates, |candidates|);
    }

    // Without ORDER BY the rows of a partition come in clustering order, newest first.
    method Getmessagessince(channel: Id, since: Time) returns (items: seq<Entry>)
      ensures items == Entries(messages, channel, Desc(SinceIds(messages, channel, since)))
    {
      var candidates := SinceIds(messages, channel, since);
      DescLists(candidates);
      items := CollectNewestFirst(messages, channel, candidates, |candidates|);
    }
  }
}
