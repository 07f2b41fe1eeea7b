/** The Scylla message log: column-wise upserts, and the newest-first order of a channel. */
module MessageLog {
  import opened Schema

  // A row of messages without its key; an unset column is NULL, and an unset collection is empty.
  datatype Message = Message(
    author: Option<Id>, content: Option<string>, kind: Option<int>, replyTo: Option<Id>, pinned: Option<bool>,
    deleted: Option<bool>, editedAt: Option<Time>, updatedAt: Option<Time>, createdAt: Option<Time>,
    forwardedChannel: Option<Id>, forwardedMessage: Option<Id>, forwardedAuthor: Option<Id>, mentions: set<Id>)

  const BLANK := Message(None, None, None, None, None, None, None, None, None, None, None, None, {})

  // (channel_id, id); ids are compared as the clustering order compares them
  type Key = (Id, Id)
  type Log = map<Key, Message>

  datatype Write =
    | Create(key: Key, author: Id, content: string, kind: int, replyTo: Id, pinned: bool, createdAt: Time,
             forwardedChannel: Id, forwardedMessage: Id, forwardedAuthor: Id, mentions: set<Id>)
    | EditContent(key: Key, content: string, editedAt: Time)
    | Delete(key: Key, updatedAt: Time)
    | Pin(key: Key, pinned: bool)

  // CQL has no insert or update that fails: both start from whatever the row holds, or from NULLs.
  function RowAt(log: Log, key: Key): Message {
    if key in log then log[key] else BLANK
  }

  function WriteRow(row: Message, w: Write): Message {
    match w
    case Create(_, author, content, kind, replyTo, pinned, createdAt, channel, message, messageAuthor, mentions) =>
      row.(author := Some(author), content := Some(content), kind := Some(kind), replyTo := Some(replyTo),
           pinned := Some(pinned), createdAt := Some(createdAt), forwardedChannel := Some(channel),
           forwardedMessage := Some(message), forwardedAuthor := Some(messageAuthor), mentions := mentions)
    case EditContent(_, content, editedAt) => row.(content := Some(content), editedAt := Some(editedAt))
    case Delete(_, updatedAt) => row.(deleted := Some(true), updatedAt := Some(updatedAt))
    case Pin(_, pinned) => row.(pinned := Some(pinned))
  }

  function Put(log: Log, w: Write): Log {
    log[w.key := WriteRow(RowAt(log, w.key), w)]
  }

  function PutAll(log: Log, writes: seq<Write>): Log {
    if writes == [] then log else Put(PutAll(log, writes[..|writes| - 1]), writes[|writes| - 1])
  }

  // The Go helpers read a NULL flag as false.
  predicate IsDeleted(row: Message) {
    row.deleted == Some(true)
  }

  function Ids(log: Log, channel: Id): set<Id> {
    set key | key in log && key.0 == channel :: key.1
  }

  lemma IdsAreKeys(log: Log, channel: Id, id: Id)
    ensures id in Ids(log, channel) <==> (channel, id) in log
  {
    if id in Ids(log, channel) {
      var key :| key in log && key.0 == channel && key.1 == id;
      assert key == (channel, id);
    }
    if (channel, id) in log {
      assert (channel, id).1 in Ids(log, channel);
    }
  }
}
