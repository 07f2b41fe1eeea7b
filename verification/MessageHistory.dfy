/** What a row of the message table says about the writes that reached it. */
module MessageHistory {
  import opened Schema
  import opened MessageLog
  import opened NewestFirst
  import opened MessageQueries

  // The timestamp of the last delete of a key in a run of writes
  function LastDelete(writes: seq<Write>, key: Key): Option<Time> {
    if writes == [] then None
    else
      var w := writes[|writes| - 1];
      if w.Delete? && w.key == key then Some(w.updatedAt) else LastDelete(writes[..|writes| - 1], key)
  }

  // The last create of a key
  function LastCreate(writes: seq<Write>, key: Key): (last: Option<Write>)
    ensures last.Some? ==> last.value.Create? && last.value.key == key
  {
    if writes == [] then None
    else
      var w := writes[|writes| - 1];
      if w.Create? && w.key == key then Some(w) else LastCreate(writes[..|writes| - 1], key)
  }

  // The text that the last create or edit of a key brought
  function LastContent(writes: seq<Write>, key: Key): Option<string> {
    if writes == [] then None
    else
      var w := writes[|writes| - 1];
      if (w.Create? || w.EditContent?) && w.key == key then Some(w.content)
      else LastContent(writes[..|writes| - 1], key)
  }

  // The timestamp of the last edit of a key
  function LastEdit(writes: seq<Write>, key: Key): Option<Time> {
    if writes == [] then None
    else
      var w := writes[|writes| - 1];
      if w.EditContent? && w.key == key then Some(w.editedAt) else LastEdit(writes[..|writes| - 1], key)
  }

  // The pin that the last create or pin of a key set
  function LastPin(writes: seq<Write>, key: Key): Option<bool> {
    if writes == [] then None
    else
      var w := writes[|writes| - 1];
      if (w.Create? || w.Pin?) && w.key == key then Some(w.pinned) else LastPin(writes[..|writes| - 1], key)
  }

  predicate Wrote(writes: seq<Write>, key: Key) {
    exists w | w in writes :: w.key == key
  }

  predicate WasCreated(writes: seq<Write>, key: Key) {
    exists w | w in writes :: w.Create? && w.key == key
  }

  predicate HadContent(writes: seq<Write>, key: Key) {
    exists w | w in writes :: (w.Create? || w.EditContent?) && w.key == key
  }

  predicate HadPin(writes: seq<Write>, key: Key) {
    exists w | w in writes :: (w.Create? || w.Pin?) && w.key == key
  }

  lemma WroteOneMore(writes: seq<Write>, key: Key)
    requires writes != []
    ensures var before, w := writes[..|writes| - 1], writes[|writes| - 1];
            && Wrote(writes, key) == (Wrote(before, key) || w.key == key)
            && WasCreated(writes, key) == (WasCreated(before, key) || (w.Create? && w.key == key))
            && HadContent(writes, key) ==
                 (HadContent(before, key) || ((w.Create? || w.EditContent?) && w.key == key))
            && HadPin(writes, key) == (HadPin(before, key) || ((w.Create? || w.Pin?) && w.key == key))
  {
    assert writes == writes[..|writes| - 1] + [writes[|writes| - 1]];
  }

  // Every column of every row holds what the last write that names it brought, and NULL without one.
  lemma {:induction false} RowHoldsLastWrites(writes: seq<Write>, key: Key)
    ensures var row := RowAt(PutAll(map[], writes), key);
            && row.content == LastContent(writes, key)
            && row.editedAt == LastEdit(writes, key)
            && row.pinned == LastPin(writes, key)
            && row.updatedAt == LastDelete(writes, key)
            && row.deleted == (if LastDelete(writes, key).Some? then Some(true) else None)
  {
    if writes == [] {
    } else {
      RowHoldsLastWrites(writes[..|writes| - 1], key);
      RowAfterPut(PutAll(map[], writes[..|writes| - 1]), writes[|writes| - 1], key);
    }
  }

  lemma RowAfterPut(log: Log, w: Write, key: Key)
    ensures RowAt(Put(log, w), key) == if w.key == key then WriteRow(RowAt(log, key), w) else RowAt(log, key)
  {
  }

  // The remaining columns are those of the last create.
  lemma {:induction false} RowHoldsLastCreate(writes: seq<Write>, key: Key)
    ensures var row, last := RowAt(PutAll(map[], writes), key), LastCreate(writes, key);
            && (last.Some? ==>
                  && row.author == Some(last.value.author) && row.kind == Some(last.value.kind)
                  && row.replyTo == Some(last.value.replyTo) && row.createdAt == Some(last.value.createdAt)
                  && row.forwardedChannel == Some(last.value.forwardedChannel)
                  && row.forwardedMessage == Some(last.value.forwardedMessage)
                  && row.forwardedAuthor == Some(last.value.forwardedAuthor) && row.mentions == last.value.mentions)
            && (last.None? ==>
                  && row.author == None && row.kind == None && row.replyTo == None && row.createdAt == None
                  && row.forwardedChannel == None && row.forwardedMessage == None && row.forwardedAuthor == None
                  && row.mentions == {})
  {
    if writes == [] {
    } else {
      RowHoldsLastCreate(writes[..|writes| - 1], key);
      RowAfterPut(PutAll(map[], writes[..|writes| - 1]), writes[|writes| - 1], key);
    }
  }

  // deleted and updated_at move together, and only a delete moves them.
  lemma {:induction false} RowTellsHistory(writes: seq<Write>, key: Key)
    ensures var log := PutAll(map[], writes);
            && (key in log <==> Wrote(writes, key))
            && RowAt(log, key).updatedAt == LastDelete(writes, key)
            && RowAt(log, key).deleted == (if LastDelete(writes, key).Some? then Some(true) else None)
            && (RowAt(log, key).author.Some? <==> WasCreated(writes, key))
            && (RowAt(log, key).content.Some? <==> HadContent(writes, key))
            && (RowAt(log, key).kind.Some? <==> WasCreated(writes, key))
            && (RowAt(log, key).pinned.Some? <==> HadPin(writes, key))
  {
    if writes == [] {
    } else {
      var before, w := writes[..|writes| - 1], writes[|writes| - 1];
      RowTellsHistory(before, key);
      WroteOneMore(writes, key);
    }
  }

  // Getmessagessince returns exactly the messages whose last delete is later than the given time.
  lemma SinceIsTheTombstoneFeed(writes: seq<Write>, channel: Id, since: Time, id: Id)
    ensures id in SinceIds(PutAll(map[], writes), channel, since) <==>
              LastDelete(writes, (channel, id)).Some? && LastDelete(writes, (channel, id)).value > since
  {
    var log := PutAll(map[], writes);
    RowTellsHistory(writes, (channel, id));
    IdsAreKeys(log, channel, id);
    if LastDelete(writes, (channel, id)).Some? {
      DeletesAreWrites(writes, (channel, id));
    }
  }

  lemma {:induction false} DeletesAreWrites(writes: seq<Write>, key: Key)
    requires LastDelete(writes, key).Some?
    ensures Wrote(writes, key)
  {
    var before, w := writes[..|writes| - 1], writes[|writes| - 1];
    if !(w.Delete? && w.key == key) {
      DeletesAreWrites(before, key);
      var earlier :| earlier in before && earlier.key == key;
      assert earlier in writes;
    } else {
      assert w in writes;
    }
  }

  // So no sync, not even the first one, brings a message that is not deleted.
  lemma FeedHoldsNoLiveMessage(writes: seq<Write>, channel: Id, since: Time)
    ensures forall id | id in SinceIds(PutAll(map[], writes), channel, since) ::
              IsDeleted(RowAt(PutAll(map[], writes), (channel, id)))
  {
    forall id | id in SinceIds(PutAll(map[], writes), channel, since)
      ensures IsDeleted(RowAt(PutAll(map[], writes), (channel, id)))
    {
      RowTellsHistory(writes, (channel, id));
    }
  }

  // The columns the sync handler dereferences (deleted, content, type, pinned) are all set exactly for messages that
  // were really created; so are author and content.
  lemma FeedRowIsWholeIff(writes: seq<Write>, channel: Id, since: Time, id: Id)
    requires id in SinceIds(PutAll(map[], writes), channel, since)
    ensures var row := RowAt(PutAll(map[], writes), (channel, id));
            && (row.author.Some? && row.content.Some? <==> WasCreated(writes, (channel, id)))
            && (row.deleted.Some? && row.content.Some? && row.kind.Some? && row.pinned.Some? <==>
                  WasCreated(writes, (channel, id)))
  {
    RowTellsHistory(writes, (channel, id));
    if WasCreated(writes, (channel, id)) {
      var w :| w in writes && w.Create? && w.key == (channel, id);
      assert HadContent(writes, (channel, id));
      assert HadPin(writes, (channel, id));
    }
  }

  // Deleting an id that was never created puts a row into the feed that is NULL in all its other columns.
  lemma DeletedBlankIsFed(channel: Id, id: Id, at: Time, since: Time)
    requires since < at
    ensures var log := PutAll(map[], [Delete((channel, id), at)]);
            && id in SinceIds(log, channel, since)
            && RowAt(log, (channel, id)) == BLANK.(deleted := Some(true), updatedAt := Some(at))
            && !WasCreated([Delete((channel, id), at)], (channel, id))
  {
    var w := Delete((channel, id), at);
    assert [w][..0] == [];
    assert PutAll(map[], [w]) == Put(map[], w);
    IdsAreKeys(Put(map[], w), channel, id);
  }

  // Once deleted, a message stays deleted and stamped, whatever is written later.
  lemma {:induction false} DeletionIsPermanent(log: Log, writes: seq<Write>, key: Key)
    requires IsDeleted(RowAt(log, key))
    requires RowAt(log, key).updatedAt.Some?
    ensures IsDeleted(RowAt(PutAll(log, writes), key))
    ensures RowAt(PutAll(log, writes), key).updatedAt.Some?
  {
    if writes == [] {
    } else {
      DeletionIsPermanent(log, writes[..|writes| - 1], key);
    }
  }
}
