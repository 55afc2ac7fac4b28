/** The persistent state the package reads and writes through its framework:
    the threads, messages and participants tables, the cache of per-user
    broadcast cursors, and the notification events handed to the broadcaster. */
module Storage {
  import opened Php

  /** Instants in whole seconds. */
  type Time = int

  /** User ids are integers; 0 stands for every PHP-empty id (null, 0, ""). */
  type UserId = int

  /** A `threads` row; `deletedAt` is the soft-delete stamp. */
  datatype ThreadRow = ThreadRow(
    id: int,
    subject: Value,
    cate: string,
    toAll: bool,
    createdAt: Time,
    updatedAt: Time,
    deletedAt: Option<Time>)

  /** A `messages` row. Sender and body hold whatever the builder's message array held. */
  datatype MessageRow = MessageRow(
    threadId: int,
    userId: Value,
    body: Value,
    createdAt: Time,
    updatedAt: Time)

  /** A `participants` row. Rows inserted through the raw query builder carry no
      timestamps; `deletedAt` is the soft-delete stamp. */
  datatype ParticipantRow = ParticipantRow(
    threadId: int,
    userId: UserId,
    lastRead: Option<Time>,
    createdAt: Option<Time>,
    updatedAt: Option<Time>,
    deletedAt: Option<Time>)

  /** A PushNotification event: the addressed user (none for a broadcast), the
      builder's message array and the broadcast flag. The room token derived
      from the user id is not part of this model. */
  datatype Notification = Notification(user: Option<UserId>, message: map<string, Value>, toAll: bool)

  datatype Table = ThreadTable | MessageTable | ParticipantTable

  /** The kind of each externally visible effect, in the order it happened. */
  datatype Op = Write(table: Table) | Publish(event: Notification)

  class Backend {
    var threads: seq<ThreadRow>
    var messages: seq<MessageRow>
    var participants: seq<ParticipantRow>
    /** The auto-increment counter of the threads table. */
    var nextThreadId: int
    /** Cache entries `messenger:latestid:user:<id>`, kept forever. */
    var latestBroadcastId: map<UserId, int>
    /** Events fired, in order. */
    var events: seq<Notification>
    /** Every table write and every fired event, in order. */
    ghost var journal: seq<Op>

    constructor ()
      ensures threads == [] && messages == [] && participants == [] && nextThreadId == 1
      ensures latestBroadcastId == map[] && events == [] && journal == []
    {
      threads, messages, participants, nextThreadId := [], [], [], 1;
      latestBroadcastId, events, journal := map[], [], [];
    }

    /** `Thread::create`: the next id, the column default category, both timestamps now. */
    method CreateThread(subject: Value, toAll: bool, now: Time) returns (t: ThreadRow)
      modifies this`threads, this`nextThreadId, this`journal
      ensures t == ThreadRow(old(nextThreadId), subject, "Msg", toAll, now, now, None)
      ensures threads == old(threads) + [t] && nextThreadId == old(nextThreadId) + 1
      ensures journal == old(journal) + [Write(ThreadTable)]
    {
      t := ThreadRow(nextThreadId, subject, "Msg", toAll, now, now, None);
      threads := threads + [t];
      nextThreadId := nextThreadId + 1;
      journal := journal + [Write(ThreadTable)];
    }

    /** `Message::create`: both timestamps now. */
    method CreateMessage(threadId: int, sender: Value, body: Value, now: Time) returns (m: MessageRow)
      modifies this`messages, this`journal
      ensures m == MessageRow(threadId, sender, body, now, now)
      ensures messages == old(messages) + [m]
      ensures journal == old(journal) + [Write(MessageTable)]
    {
      m := MessageRow(threadId, sender, body, now, now);
      messages := messages + [m];
      journal := journal + [Write(MessageTable)];
    }

    /** One insert statement into the participants table. */
    method InsertParticipants(rows: seq<ParticipantRow>)
      modifies this`participants, this`journal
      ensures participants == old(participants) + rows
      ensures journal == old(journal) + [Write(ParticipantTable)]
    {
      participants := participants + rows;
      journal := journal + [Write(ParticipantTable)];
    }

    /** Saving one changed participant model. */
    method UpdateParticipant(i: nat, row: ParticipantRow)
      requires i < |participants|
      modifies this`participants, this`journal
      ensures participants == old(participants)[i := row]
      ensures journal == old(journal) + [Write(ParticipantTable)]
    {
      participants := participants[i := row];
      journal := journal + [Write(ParticipantTable)];
    }

    /** `Event::fire` of a PushNotification. */
    method Fire(n: Notification)
      modifies this`events, this`journal
      ensures events == old(events) + [n]
      ensures journal == old(journal) + [Publish(n)]
    {
      events := events + [n];
      journal := journal + [Publish(n)];
    }

    /** `Cache::forever` on a user's broadcast cursor. */
    method CacheForever(userId: UserId, id: int)
      modifies this`latestBroadcastId
      ensures latestBroadcastId == old(latestBroadcastId)[userId := id]
    {
      latestBroadcastId := latestBroadcastId[userId := id];
    }
  }
}
