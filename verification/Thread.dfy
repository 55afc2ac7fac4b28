/** Read cursors, unread tracking and membership of one thread
    (the Thread model). A thread instance is its row, plus the pivot columns it
    carries when it was loaded through a user's threads relation; the tables it
    queries and updates live in a Backend. */
module Thread {
  import opened Php
  import opened Storage

  /** The pivot a thread carries when loaded through a user's threads relation:
      that user's participant `last_read`. */
  datatype Pivot = Pivot(lastRead: Option<Time>)

  /** A thread model instance. */
  datatype ThreadView = ThreadView(row: ThreadRow, pivot: Option<Pivot>)

  // ---------------------------------------------------------------------------
  // Finding a user's participant row

  /** Whether the query `participants($userId)` sees row `p`: a row of this thread
      that is not soft-deleted, of that user, or of any user when the id is empty
      (the ofUser scope then returns false and leaves the query unfiltered).
      With a non-empty id it is the row `hasParticipant` counts. */
  predicate Selects(p: ParticipantRow, threadId: int, userId: UserId)
    ensures userId != 0 ==> (Selects(p, threadId, userId) <==> ActiveRowOf(p, threadId, userId))
    ensures userId == 0 ==> (Selects(p, threadId, userId) <==> p.threadId == threadId && p.deletedAt.None?)
  {
    p.threadId == threadId && p.deletedAt.None? && (userId == 0 || p.userId == userId)
  }

  /** `getParticipantFromUser`: the position of the first row the query sees;
      None is the ModelNotFoundException of `firstOrFail`. */
  function FindParticipant(ps: seq<ParticipantRow>, threadId: int, userId: UserId): (r: Option<nat>)
    ensures r.Some? ==> r.value < |ps| && Selects(ps[r.value], threadId, userId)
    ensures r.Some? ==> forall j :: 0 <= j < r.value ==> !Selects(ps[j], threadId, userId)
    ensures r.None? ==> forall j :: 0 <= j < |ps| ==> !Selects(ps[j], threadId, userId)
  {
    if ps == [] then None
    else if Selects(ps[0], threadId, userId) then Some(0)
    else match FindParticipant(ps[1..], threadId, userId)
      case None => None
      case Some(k) => Some(k + 1)
  }

  /** Rewriting rows in a way that does not change which of them the query sees
      leaves the lookup's answer unchanged. */
  lemma FindParticipantUnchanged(ps: seq<ParticipantRow>, qs: seq<ParticipantRow>, threadId: int, userId: UserId)
    requires |ps| == |qs|
    requires forall j :: 0 <= j < |ps| ==> (Selects(ps[j], threadId, userId) <==> Selects(qs[j], threadId, userId))
    ensures FindParticipant(ps, threadId, userId) == FindParticipant(qs, threadId, userId)
  {
    var a, b := FindParticipant(ps, threadId, userId), FindParticipant(qs, threadId, userId);
    if a.Some? && b.Some? {
      assert !(a.value < b.value) && !(b.value < a.value);
    }
  }

  // ---------------------------------------------------------------------------
  // isUnread

  /** The unread test shared by `isUnread` and the unreadThreads relation: unread
      when there is no cursor or the thread was updated after it. PHP compares a
      timestamp object with null as booleans, so any timestamp is later than null. */
  predicate UnreadSince(updatedAt: Time, lastRead: Option<Time>)
  {
    lastRead.None? || updatedAt > lastRead.value
  }

  /** `isUnread` as written. Its guard `isset($this->pivot->last_read) ||
      $this->pivot->last_read === null` holds whenever it can be evaluated, so the
      participant lookup in the else branch is never reached and the user id is
      never used; without a pivot, reading `last_read` of null ends the call with
      an exception the surrounding catch does not handle. */
  function IsUnreadAsWritten(thread: ThreadView): (r: Result<bool>)
    ensures r.Err? <==> thread.pivot.None?
    ensures r.Ok? ==> (r.value <==> UnreadSince(thread.row.updatedAt, thread.pivot.value.lastRead))
  {
    match thread.pivot
    case None => Err(PropertyOfNonObject("last_read"))
    case Some(p) => Ok(UnreadSince(thread.row.updatedAt, p.lastRead))
  }

  /** `isUnread` as its else branch and catch clause evidently intend: the pivot's
      cursor when there is a pivot, otherwise the cursor of the participant
      `getParticipantFromUser` finds, and false when there is none. */
  function IsUnread(thread: ThreadView, userId: UserId, ps: seq<ParticipantRow>): (r: bool)
    ensures thread.pivot.Some? ==> (r <==> UnreadSince(thread.row.updatedAt, thread.pivot.value.lastRead))
    ensures thread.pivot.None? ==>
      (r <==> exists i :: 0 <= i < |ps| && Selects(ps[i], thread.row.id, userId)
                        && (forall j :: 0 <= j < i ==> !Selects(ps[j], thread.row.id, userId))
                        && UnreadSince(thread.row.updatedAt, ps[i].lastRead))
  {
    match thread.pivot
    case Some(p) => UnreadSince(thread.row.updatedAt, p.lastRead)
    case None =>
      match FindParticipant(ps, thread.row.id, userId)
      case None => false
      case Some(i) =>
        forall k | 0 <= k < |ps| && Selects(ps[k], thread.row.id, userId)
                   && (forall j :: 0 <= j < k ==> !Selects(ps[j], thread.row.id, userId))
          ensures k == i
        {
        }
        UnreadSince(thread.row.updatedAt, ps[i].lastRead)
  }

  /** Where the thread has a pivot, the code as written and the intended reading agree. */
  lemma IsUnreadAgreesWithPivot(thread: ThreadView, userId: UserId, ps: seq<ParticipantRow>)
    requires thread.pivot.Some?
    ensures IsUnreadAsWritten(thread) == Ok(IsUnread(thread, userId, ps))
  {
  }

  /** A thread fetched directly (no pivot), whose participant read it after its
      last update: as written the call ends in an exception instead of answering
      false. */
  lemma IsUnreadNeverLooksUpParticipant()
    ensures var t := ThreadView(ThreadRow(1, Str("hello"), "Msg", false, 10, 10, None), None);
            var ps := [ParticipantRow(1, 7, Some(20), None, None, None)];
            IsUnreadAsWritten(t).Err? && !IsUnread(t, 7, ps)
  {
    var t := ThreadView(ThreadRow(1, Str("hello"), "Msg", false, 10, 10, None), None);
    var ps := [ParticipantRow(1, 7, Some(20), None, None, None)];
    assert FindParticipant(ps, 1, 7) == Some(0);
  }

  // ---------------------------------------------------------------------------
  // markAsRead

  /** Saving `last_read = now` on a participant model: a changed attribute also
      touches `updated_at`; when nothing changes, nothing is saved. */
  function ReadAt(p: ParticipantRow, now: Time): (q: ParticipantRow)
    ensures q.lastRead == Some(now)
    ensures q.threadId == p.threadId && q.userId == p.userId && q.createdAt == p.createdAt && q.deletedAt == p.deletedAt
    ensures q == p <==> p.lastRead == Some(now)
  {
    if p.lastRead == Some(now) then p else p.(lastRead := Some(now), updatedAt := Some(now))
  }

  /** The participants table after `markAsRead($userId)` at `now`: only the row the
      lookup finds changes, and a failed lookup (logged, not thrown) changes nothing. */
  function MarkedAsRead(ps: seq<ParticipantRow>, threadId: int, userId: UserId, now: Time): (r: seq<ParticipantRow>)
    ensures |r| == |ps|
    ensures FindParticipant(ps, threadId, userId).None? ==> r == ps
    ensures FindParticipant(ps, threadId, userId).Some? ==>
      var i := FindParticipant(ps, threadId, userId).value;
      && r[i].lastRead == Some(now)
      && r[i].threadId == ps[i].threadId && r[i].userId == ps[i].userId && r[i].deletedAt == ps[i].deletedAt
      && (forall j :: 0 <= j < |ps| && j != i ==> r[j] == ps[j])
  {
    match FindParticipant(ps, threadId, userId)
    case None => ps
    case Some(i) => ps[i := ReadAt(ps[i], now)]
  }

  method MarkAsRead(db: Backend, thread: ThreadRow, userId: UserId, now: Time)
    modifies db`participants, db`journal
    ensures db.participants == MarkedAsRead(old(db.participants), thread.id, userId, now)
    ensures db.journal == old(db.journal) + (if db.participants == old(db.participants) then [] else [Write(ParticipantTable)])
  {
    var found := FindParticipant(db.participants, thread.id, userId);
    if found.Some? {
      var i := found.value;
      var participant := db.participants[i];
      if participant.lastRead != Some(now) {
        db.UpdateParticipant(i, ReadAt(participant, now));
        assert db.participants[i] != old(db.participants)[i];
      }
    }
  }

  /** After `markAsRead` at a time no earlier than the thread's last update, the
      thread reads as not unread for that user. */
  lemma MarkAsReadClearsUnread(thread: ThreadRow, userId: UserId, ps: seq<ParticipantRow>, now: Time)
    requires FindParticipant(ps, thread.id, userId).Some?
    requires now >= thread.updatedAt
    ensures !IsUnread(ThreadView(thread, None), userId, MarkedAsRead(ps, thread.id, userId, now))
  {
    var qs := MarkedAsRead(ps, thread.id, userId, now);
    FindParticipantUnchanged(ps, qs, thread.id, userId);
  }

  // ---------------------------------------------------------------------------
  // hasParticipant, participantsUserIds

  /** A row `participants()->where('user_id', $userId)` counts: this thread's, that
      user's, not soft-deleted. */
  predicate ActiveRowOf(p: ParticipantRow, threadId: int, userId: UserId)
  {
    p.threadId == threadId && p.userId == userId && p.deletedAt.None?
  }

  /** The count that query returns. */
  function ActiveRowCount(ps: seq<ParticipantRow>, threadId: int, userId: UserId): (n: nat)
    ensures n <= |ps|
    ensures n > 0 <==> exists j :: 0 <= j < |ps| && ActiveRowOf(ps[j], threadId, userId)
  {
    if ps == [] then 0
    else
      var rest := ActiveRowCount(ps[1..], threadId, userId);
      assert forall j :: 1 <= j < |ps| ==> ps[j] == ps[1..][j - 1];
      (if ActiveRowOf(ps[0], threadId, userId) then 1 else 0) + rest
  }

  /** `hasParticipant`: the user has an active row in this thread. */
  function HasParticipant(ps: seq<ParticipantRow>, threadId: int, userId: UserId): (r: bool)
    ensures r <==> exists j :: 0 <= j < |ps| && ActiveRowOf(ps[j], threadId, userId)
  {
    ActiveRowCount(ps, threadId, userId) > 0
  }

  /** This thread's rows, soft-deleted ones included (`withTrashed`), in table order. */
  function RowsOfThread(ps: seq<ParticipantRow>, threadId: int): (r: seq<ParticipantRow>)
    ensures |r| <= |ps|
    ensures forall p :: p in r <==> p in ps && p.threadId == threadId
  {
    if ps == [] then []
    else
      var rest := RowsOfThread(ps[1..], threadId);
      assert forall p :: p in ps <==> p == ps[0] || p in ps[1..];
      (if ps[0].threadId == threadId then [ps[0]] else []) + rest
  }

  /** The query drops no copy of a row: each row of the thread occurs as often as
      in the table, and rows of other threads not at all. */
  lemma {:induction false} RowsOfThreadMultiset(ps: seq<ParticipantRow>, threadId: int)
    ensures forall p :: multiset(RowsOfThread(ps, threadId))[p] == if p.threadId == threadId then multiset(ps)[p] else 0
  {
    if ps != [] {
      RowsOfThreadMultiset(ps[1..], threadId);
      assert multiset(ps) == multiset{ps[0]} + multiset(ps[1..]) by {
        assert ps == [ps[0]] + ps[1..];
      }
    }
  }

  /** One unfolding of the query on a table with a given first row. */
  lemma RowsOfThreadCons(p: ParticipantRow, qs: seq<ParticipantRow>, threadId: int)
    ensures RowsOfThread([p] + qs, threadId) == (if p.threadId == threadId then [p] else []) + RowsOfThread(qs, threadId)
  {
    assert ([p] + qs)[1..] == qs;
  }

  /** The query keeps table order: the rows of two stretches of the table,
      one after the other, are the rows of the first followed by those of the second. */
  lemma {:induction false} RowsOfThreadAppend(ps: seq<ParticipantRow>, qs: seq<ParticipantRow>, threadId: int)
    ensures RowsOfThread(ps + qs, threadId) == RowsOfThread(ps, threadId) + RowsOfThread(qs, threadId)
  {
    if ps == [] {
      assert ps + qs == qs;
    } else {
      var head := if ps[0].threadId == threadId then [ps[0]] else [];
      var tail := ps[1..];
      assert ps == [ps[0]] + tail;
      assert ps + qs == [ps[0]] + (tail + qs);
      RowsOfThreadCons(ps[0], tail + qs, threadId);
      RowsOfThreadCons(ps[0], tail, threadId);
      RowsOfThreadAppend(tail, qs, threadId);
      var x, y := RowsOfThread(tail, threadId), RowsOfThread(qs, threadId);
      assert head + (x + y) == (head + x) + y;
    }
  }

  /** `participantsUserIds($userId)`: the user id of every row of the thread,
      soft-deleted ones included and duplicates kept, followed by the given id
      when it is not empty. */
  function ParticipantsUserIds(ps: seq<ParticipantRow>, threadId: int, userId: UserId): (r: seq<UserId>)
    ensures var rows := RowsOfThread(ps, threadId);
      && |r| == |rows| + (if userId != 0 then 1 else 0)
      && (forall i :: 0 <= i < |rows| ==> r[i] == rows[i].userId)
      && (userId != 0 ==> r[|rows|] == userId)
  {
    var rows := RowsOfThread(ps, threadId);
    var ids := seq(|rows|, i requires 0 <= i < |rows| => rows[i].userId);
    if userId != 0 then ids + [userId] else ids
  }

  /** Rows of users 5, 5 and 7 give the ids 5, 5, 7: nothing is de-duplicated. */
  lemma ParticipantsUserIdsKeepDuplicates(threadId: int)
    ensures ParticipantsUserIds([RawRow(threadId, 5), RawRow(threadId, 5), RawRow(threadId, 7)], threadId, 0) == [5, 5, 7]
  {
    var ps := [RawRow(threadId, 5), RawRow(threadId, 5), RawRow(threadId, 7)];
    assert RowsOfThread(ps[2..], threadId) == [ps[2]] by {
      assert ps[2..][1..] == [];
    }
    assert ps[1..][1..] == ps[2..];
    assert RowsOfThread(ps[1..], threadId) == [ps[1], ps[2]];
    assert RowsOfThread(ps, threadId) == ps;
  }

  /** Every row of the thread, trashed or not, contributes its user id. */
  lemma ParticipantsUserIdsIncludeTrashed(ps: seq<ParticipantRow>, threadId: int, userId: UserId, p: ParticipantRow)
    requires p in ps && p.threadId == threadId
    ensures p.userId in ParticipantsUserIds(ps, threadId, userId)
  {
    var rows := RowsOfThread(ps, threadId);
    assert p in rows;
    var k :| 0 <= k < |rows| && rows[k] == p;
    assert ParticipantsUserIds(ps, threadId, userId)[k] == p.userId;
  }

  // ---------------------------------------------------------------------------
  // addParticipants

  /** The argument of `addParticipants`: an array of user ids, or a single id. */
  datatype NewMembers = UserIds(ids: seq<UserId>) | OneUser(id: UserId)

  /** A row inserted through the query builder: the two ids, every other column null. */
  function RawRow(threadId: int, userId: UserId): ParticipantRow
  {
    ParticipantRow(threadId, userId, None, None, None, None)
  }

  /** A row created by `firstOrCreate`: timestamps now. */
  function CreatedRow(threadId: int, userId: UserId, now: Time): ParticipantRow
  {
    ParticipantRow(threadId, userId, None, Some(now), Some(now), None)
  }

  function NewRows(ids: seq<UserId>, threadId: int): (r: seq<ParticipantRow>)
    ensures |r| == |ids|
    ensures forall i :: 0 <= i < |ids| ==> r[i] == RawRow(threadId, ids[i])
  {
    seq(|ids|, i requires 0 <= i < |ids| => RawRow(threadId, ids[i]))
  }

  /** The participants table after `addParticipants`. A non-empty array appends one
      row per element, in order, duplicates kept; a single non-empty id adds a row
      only when the user has no active row yet; anything empty changes nothing. */
  function WithParticipants(ps: seq<ParticipantRow>, threadId: int, members: NewMembers, now: Time): (r: seq<ParticipantRow>)
    ensures |ps| <= |r| && r[..|ps|] == ps
    ensures members.UserIds? ==>
      && |r| == |ps| + |members.ids|
      && forall i :: 0 <= i < |members.ids| ==> r[|ps| + i] == RawRow(threadId, members.ids[i])
    ensures members.OneUser? ==>
      && |r| <= |ps| + 1
      && (members.id == 0 || HasParticipant(ps, threadId, members.id) ==> r == ps)
      && (members.id != 0 ==> HasParticipant(r, threadId, members.id))
  {
    match members
    case UserIds(ids) =>
      if |ids| > 0 then ps + NewRows(ids, threadId) else ps
    case OneUser(u) =>
      if u == 0 || HasParticipant(ps, threadId, u) then ps
      else
        var r := ps + [CreatedRow(threadId, u, now)];
        assert ActiveRowOf(r[|ps|], threadId, u);
        r
  }

  /** Adding the same single id again, at any later time, changes nothing. */
  lemma AddOneParticipantIdempotent(ps: seq<ParticipantRow>, threadId: int, userId: UserId, now: Time, later: Time)
    ensures var once := WithParticipants(ps, threadId, OneUser(userId), now);
            WithParticipants(once, threadId, OneUser(userId), later) == once
  {
  }

  /** The array branch keeps duplicates: three ids, two of them equal, make three rows. */
  lemma ArrayBranchKeepsDuplicates(ps: seq<ParticipantRow>, threadId: int, now: Time)
    ensures var r := WithParticipants(ps, threadId, UserIds([5, 5, 7]), now);
            |r| == |ps| + 3 && r[|ps|] == r[|ps| + 1] == RawRow(threadId, 5)
  {
    var r := WithParticipants(ps, threadId, UserIds([5, 5, 7]), now);
    assert r[|ps| + 0] == RawRow(threadId, 5);
    assert r[|ps| + 1] == RawRow(threadId, 5);
  }

  method AddParticipants(db: Backend, thread: ThreadRow, members: NewMembers, now: Time)
    modifies db`participants, db`journal
    ensures db.participants == WithParticipants(old(db.participants), thread.id, members, now)
    ensures db.journal == old(db.journal) + (if db.participants == old(db.participants) then [] else [Write(ParticipantTable)])
  {
    match members
    case UserIds(ids) =>
      if |ids| > 0 {
        var all: seq<ParticipantRow> := [];
        for i := 0 to |ids|
          invariant |all| == i
          invariant forall k :: 0 <= k < i ==> all[k] == RawRow(thread.id, ids[k])
        {
          all := all + [RawRow(thread.id, ids[i])];
        }
        assert all == NewRows(ids, thread.id);
        db.InsertParticipants(all);
        assert |db.participants| > |old(db.participants)|;
      }
    case OneUser(u) =>
      if u != 0 && !HasParticipant(db.participants, thread.id, u) {
        db.InsertParticipants([CreatedRow(thread.id, u, now)]);
        assert |db.participants| > |old(db.participants)|;
      }
  }

  // ---------------------------------------------------------------------------
  // activateAllParticipants

  /** `restore()` on one participant model: a soft-deleted row gets its stamp
      cleared and `updated_at` touched; restoring an active row saves nothing. */
  function Restored(p: ParticipantRow, now: Time): (r: ParticipantRow)
    ensures r.deletedAt.None?
    ensures r.threadId == p.threadId && r.userId == p.userId && r.lastRead == p.lastRead && r.createdAt == p.createdAt
    ensures r == p <==> p.deletedAt.None?
  {
    if p.deletedAt.Some? then p.(deletedAt := None, updatedAt := Some(now)) else p
  }

  /** The participants table after `activateAllParticipants`: every row of the
      thread is active, keeping its user and cursor; rows of other threads and
      rows that were active are untouched. */
  function AllActivated(ps: seq<ParticipantRow>, threadId: int, now: Time): (r: seq<ParticipantRow>)
    ensures |r| == |ps|
    ensures forall i :: 0 <= i < |ps| && ps[i].threadId == threadId ==>
      && r[i].deletedAt.None?
      && r[i].threadId == threadId && r[i].userId == ps[i].userId && r[i].lastRead == ps[i].lastRead
    ensures forall i :: 0 <= i < |ps| && (ps[i].threadId != threadId || ps[i].deletedAt.None?) ==> r[i] == ps[i]
  {
    seq(|ps|, i requires 0 <= i < |ps| => if ps[i].threadId == threadId then Restored(ps[i], now) else ps[i])
  }

  /** Activating twice, at any two times, is activating once. */
  lemma ActivateAllIdempotent(ps: seq<ParticipantRow>, threadId: int, now: Time, later: Time)
    ensures AllActivated(AllActivated(ps, threadId, now), threadId, later) == AllActivated(ps, threadId, now)
  {
  }

  /** After activation every user with a row in the thread, trashed or not, is a participant. */
  lemma ActivatedRowsAreParticipants(ps: seq<ParticipantRow>, threadId: int, now: Time, p: ParticipantRow)
    requires p in ps && p.threadId == threadId
    ensures HasParticipant(AllActivated(ps, threadId, now), threadId, p.userId)
  {
    var k :| 0 <= k < |ps| && ps[k] == p;
    assert ActiveRowOf(AllActivated(ps, threadId, now)[k], threadId, p.userId);
  }

  /** The number of soft-deleted rows of the thread, counted from the end. */
  function TrashedRowCount(ps: seq<ParticipantRow>, threadId: int): (n: nat)
    ensures n <= |ps|
    ensures n == 0 <==> forall i :: 0 <= i < |ps| ==> !(ps[i].threadId == threadId && ps[i].deletedAt.Some?)
  {
    if ps == [] then 0
    else
      var last := ps[|ps| - 1];
      assert forall i :: 0 <= i < |ps| - 1 ==> ps[..|ps| - 1][i] == ps[i];
      TrashedRowCount(ps[..|ps| - 1], threadId) + (if last.threadId == threadId && last.deletedAt.Some? then 1 else 0)
  }

  /** Saving restores one row per soft-deleted row of the thread: the journal keeps
      its old entries and gains exactly that many participant writes. */
  method ActivateAllParticipants(db: Backend, thread: ThreadRow, now: Time)
    modifies db`participants, db`journal
    ensures db.participants == AllActivated(old(db.participants), thread.id, now)
    ensures |db.journal| == |old(db.journal)| + TrashedRowCount(old(db.participants), thread.id)
    ensures db.journal[..|old(db.journal)|] == old(db.journal)
    ensures forall k :: |old(db.journal)| <= k < |db.journal| ==> db.journal[k] == Write(ParticipantTable)
  {
    ghost var before := db.participants;
    var i := 0;
    while i < |db.participants|
      invariant 0 <= i <= |db.participants| == |before|
      invariant forall k :: 0 <= k < i ==> db.participants[k] == (if before[k].threadId == thread.id then Restored(before[k], now) else before[k])
      invariant forall k :: i <= k < |db.participants| ==> db.participants[k] == before[k]
      invariant |db.journal| == |old(db.journal)| + TrashedRowCount(before[..i], thread.id)
      invariant db.journal[..|old(db.journal)|] == old(db.journal)
      invariant forall k :: |old(db.journal)| <= k < |db.journal| ==> db.journal[k] == Write(ParticipantTable)
    {
      var participant := db.participants[i];
      assert before[..i + 1][..i] == before[..i];
      if participant.threadId == thread.id && participant.deletedAt.Some? {
        db.UpdateParticipant(i, Restored(participant, now));
      }
      i := i + 1;
    }
    assert before[..i] == before;
  }

  // ---------------------------------------------------------------------------
  // userUnreadMessages, userUnreadMessagesCount

  /** The thread's messages in table order (the `messages` relation). */
  function MessagesOf(ms: seq<MessageRow>, threadId: int): (r: seq<MessageRow>)
    ensures |r| <= |ms|
  {
    if ms == [] then []
    else (if ms[0].threadId == threadId then [ms[0]] else []) + MessagesOf(ms[1..], threadId)
  }

  /** The relation keeps every message of the thread as often as it is stored. */
  lemma {:induction false} MessagesOfMultiset(ms: seq<MessageRow>, threadId: int)
    ensures forall m :: multiset(MessagesOf(ms, threadId))[m] == if m.threadId == threadId then multiset(ms)[m] else 0
  {
    if ms != [] {
      MessagesOfMultiset(ms[1..], threadId);
      assert multiset(ms) == multiset{ms[0]} + multiset(ms[1..]) by {
        assert ms == [ms[0]] + ms[1..];
      }
      var head := if ms[0].threadId == threadId then [ms[0]] else [];
      assert multiset(MessagesOf(ms, threadId)) == multiset(head) + multiset(MessagesOf(ms[1..], threadId));
    }
  }

  /** The relation holds exactly the thread's messages. */
  lemma {:induction false} MessagesOfMembers(ms: seq<MessageRow>, threadId: int)
    ensures forall m :: m in MessagesOf(ms, threadId) <==> m in ms && m.threadId == threadId
  {
    if ms != [] {
      MessagesOfMembers(ms[1..], threadId);
      assert forall m :: m in ms <==> m == ms[0] || m in ms[1..];
    }
  }

  /** The backward scan of `userUnreadMessages` from index `i`: it collects
      messages newest first while each was updated after the cursor, stops at the
      first that was not, and never examines index 0. */
  function ScanDown(ms: seq<MessageRow>, lastRead: Time, i: nat): (r: seq<MessageRow>)
    requires i < |ms|
    ensures |r| <= i
  {
    if i == 0 then []
    else if ms[i].updatedAt > lastRead then [ms[i]] + ScanDown(ms, lastRead, i - 1)
    else []
  }

  /** The scan yields the messages from index `i` downwards that are later than
      the cursor, stops at the first that is not, and never reaches index 0. */
  lemma {:induction false} ScanDownShape(ms: seq<MessageRow>, lastRead: Time, i: nat)
    requires i < |ms|
    ensures var r := ScanDown(ms, lastRead, i);
            && (forall k :: 0 <= k < |r| ==> r[k] == ms[i - k] && ms[i - k].updatedAt > lastRead)
            && (|r| < i ==> ms[i - |r|].updatedAt <= lastRead)
  {
    if i > 0 && ms[i].updatedAt > lastRead {
      var r := ScanDown(ms, lastRead, i);
      var rest := ScanDown(ms, lastRead, i - 1);
      ScanDownShape(ms, lastRead, i - 1);
      assert r == [ms[i]] + rest;
      forall k | 0 <= k < |r|
        ensures r[k] == ms[i - k] && ms[i - k].updatedAt > lastRead
      {
        if k > 0 {
          assert r[k] == rest[k - 1];
        }
      }
      assert |r| < i ==> ms[i - |r|] == ms[i - 1 - |rest|];
    }
  }

  /** What `userUnreadMessages($userId)` returns or throws. */
  function UnreadMessages(ms: seq<MessageRow>, ps: seq<ParticipantRow>, threadId: int, userId: UserId): (r: Result<seq<MessageRow>>)
    ensures FindParticipant(ps, threadId, userId).None? <==> r == Err(ModelNotFound)
  {
    var messages := MessagesOf(ms, threadId);
    match FindParticipant(ps, threadId, userId)
    case None => Err(ModelNotFound)
    case Some(k) =>
      if ps[k].lastRead.None? then Ok(messages)
      else if |messages| == 0 then Err(UndefinedOffset(-1))
      else Ok(ScanDown(messages, ps[k].lastRead.value, |messages| - 1))
  }

  /** Whatever is reported unread is a message of this thread. */
  lemma UnreadMessagesOfThread(ms: seq<MessageRow>, ps: seq<ParticipantRow>, threadId: int, userId: UserId)
    ensures var r := UnreadMessages(ms, ps, threadId, userId);
            r.Ok? ==> forall m :: m in r.value ==> m in ms && m.threadId == threadId
  {
    MessagesOfMembers(ms, threadId);
    var messages := MessagesOf(ms, threadId);
    var found := FindParticipant(ps, threadId, userId);
    if found.Some? && ps[found.value].lastRead.Some? && messages != [] {
      var t := ps[found.value].lastRead.value;
      var r := ScanDown(messages, t, |messages| - 1);
      ScanDownShape(messages, t, |messages| - 1);
      forall m | m in r
        ensures m in messages
      {
        var k :| 0 <= k < |r| && r[k] == m;
      }
    }
  }

  /** With a null cursor every message of the thread is unread, in stored order. */
  lemma NullCursorReturnsAllMessages(ms: seq<MessageRow>, ps: seq<ParticipantRow>, threadId: int, userId: UserId)
    requires FindParticipant(ps, threadId, userId).Some?
    requires ps[FindParticipant(ps, threadId, userId).value].lastRead.None?
    ensures UnreadMessages(ms, ps, threadId, userId) == Ok(MessagesOf(ms, threadId))
  {
  }

  /** With a cursor, the result is a newest-first run of messages after the cursor,
      taken from the end of the thread and never reaching its first message; a
      thread without messages makes the scan read offset -1. */
  lemma CursorScanShape(ms: seq<MessageRow>, ps: seq<ParticipantRow>, threadId: int, userId: UserId)
    requires FindParticipant(ps, threadId, userId).Some?
    requires ps[FindParticipant(ps, threadId, userId).value].lastRead.Some?
    ensures var messages := MessagesOf(ms, threadId);
            var t := ps[FindParticipant(ps, threadId, userId).value].lastRead.value;
            var r := UnreadMessages(ms, ps, threadId, userId);
            && (messages == [] <==> r == Err(UndefinedOffset(-1)))
            && (r.Ok? ==>
                  && |r.value| < |messages|
                  && (forall k :: 0 <= k < |r.value| ==> r.value[k] == messages[|messages| - 1 - k] && r.value[k].updatedAt > t)
                  && (|r.value| < |messages| - 1 ==> messages[|messages| - 1 - |r.value|].updatedAt <= t))
  {
    var messages := MessagesOf(ms, threadId);
    if messages != [] {
      ScanDownShape(messages, ps[FindParticipant(ps, threadId, userId).value].lastRead.value, |messages| - 1);
    }
  }

  method UserUnreadMessages(db: Backend, thread: ThreadRow, userId: UserId) returns (r: Result<seq<MessageRow>>)
    ensures r == UnreadMessages(db.messages, db.participants, thread.id, userId)
  {
    var messages := MessagesOf(db.messages, thread.id);
    var found := FindParticipant(db.participants, thread.id, userId);
    if found.None? {
      return Err(ModelNotFound);
    }
    var participant := db.participants[found.value];
    if participant.lastRead.None? {
      return Ok(messages);
    }
    var lastRead := participant.lastRead.value;
    if |messages| == 0 {
      // `while (-1)` is entered and `$messages[-1]` is undefined
      return Err(UndefinedOffset(-1));
    }
    var unread := ScanUnread(messages, lastRead);
    return Ok(unread);
  }

  /** The `while ($i)` loop of `userUnreadMessages`: walk down from the newest
      index, collecting while the message is newer than the read mark. */
  method ScanUnread(messages: seq<MessageRow>, lastRead: Time) returns (unread: seq<MessageRow>)
    requires |messages| > 0
    ensures unread == ScanDown(messages, lastRead, |messages| - 1)
  {
    unread := [];
    var i := |messages| - 1;
    while i != 0
      invariant 0 <= i < |messages|
      invariant unread + ScanDown(messages, lastRead, i) == ScanDown(messages, lastRead, |messages| - 1)
      decreases i
    {
      if messages[i].updatedAt > lastRead {
        assert ScanDown(messages, lastRead, i) == [messages[i]] + ScanDown(messages, lastRead, i - 1);
        unread := unread + [messages[i]];
      } else {
        assert ScanDown(messages, lastRead, i) == [];
        break;
      }
      i := i - 1;
    }
    assert unread == ScanDown(messages, lastRead, |messages| - 1);
  }

  method UserUnreadMessagesCount(db: Backend, thread: ThreadRow, userId: UserId) returns (r: Result<nat>)
    ensures var u := UnreadMessages(db.messages, db.participants, thread.id, userId);
            && (u.Err? ==> r == Err(u.error))
            && (u.Ok? ==> r == Ok(|u.value|))
  {
    var unread := UserUnreadMessages(db, thread, userId);
    match unread
    case Err(e) => r := Err(e);
    case Ok(s) => r := Ok(|s|);
  }

  // ---------------------------------------------------------------------------
  // Counting against a chronological thread

  /** Messages stored in the order of their update times. */
  predicate Chronological(ms: seq<MessageRow>)
  {
    forall i, j :: 0 <= i < j < |ms| ==> ms[i].updatedAt <= ms[j].updatedAt
  }

  /** How many messages were updated after `t`. */
  function CountLater(ms: seq<MessageRow>, t: Time): (n: nat)
    ensures n <= |ms|
  {
    if ms == [] then 0 else (if ms[0].updatedAt > t then 1 else 0) + CountLater(ms[1..], t)
  }

  /** A run of messages not after `t` followed by a run after it has exactly the
      second run's length of later messages. */
  lemma {:induction false} CountLaterThreshold(ms: seq<MessageRow>, t: Time, k: nat)
    requires k <= |ms|
    requires forall i :: 0 <= i < k ==> ms[i].updatedAt <= t
    requires forall i :: k <= i < |ms| ==> ms[i].updatedAt > t
    ensures CountLater(ms, t) == |ms| - k
  {
    if ms != [] {
      CountLaterThreshold(ms[1..], t, if k > 0 then k - 1 else 0);
    }
  }

  /** On a chronological thread the scan finds every message after the cursor
      except the first message of the thread. */
  lemma {:induction false} ChronologicalScanCount(ms: seq<MessageRow>, t: Time)
    requires |ms| > 0 && Chronological(ms)
    ensures |ScanDown(ms, t, |ms| - 1)| == CountLater(ms[1..], t)
  {
    var n := |ms|;
    var r := ScanDown(ms, t, n - 1);
    ScanDownShape(ms, t, n - 1);
    var len := |r|;
    var tail := ms[1..];
    forall i | 0 <= i < n - 1 - len
      ensures tail[i].updatedAt <= t
    {
      assert ms[n - 1 - len].updatedAt <= t;
      assert ms[i + 1].updatedAt <= ms[n - 1 - len].updatedAt;
    }
    forall i | n - 1 - len <= i < n - 1
      ensures tail[i].updatedAt > t
    {
      var k := n - 2 - i;
      assert 0 <= k < len;
      assert r[k] == ms[n - 1 - k];
    }
    CountLaterThreshold(tail, t, n - 1 - len);
  }

  /** The scan as evidently intended: from the newest message down to index 0. */
  function LaterMessagesNewestFirst(ms: seq<MessageRow>, t: Time): (r: seq<MessageRow>)
    ensures |r| <= |ms|
    ensures forall k :: 0 <= k < |r| ==> r[k] == ms[|ms| - 1 - k] && r[k].updatedAt > t
    ensures |r| < |ms| ==> ms[|ms| - 1 - |r|].updatedAt <= t
  {
    if ms == [] then []
    else if ms[|ms| - 1].updatedAt > t then [ms[|ms| - 1]] + LaterMessagesNewestFirst(ms[..|ms| - 1], t)
    else []
  }

  /** On a chronological thread the intended scan finds every message after the cursor. */
  lemma {:induction false} ChronologicalIntendedCount(ms: seq<MessageRow>, t: Time)
    requires Chronological(ms)
    ensures |LaterMessagesNewestFirst(ms, t)| == CountLater(ms, t)
  {
    var n := |ms|;
    var r := LaterMessagesNewestFirst(ms, t);
    var len := |r|;
    forall i | 0 <= i < n - len
      ensures ms[i].updatedAt <= t
    {
      assert ms[n - 1 - len].updatedAt <= t;
    }
    forall i | n - len <= i < n
      ensures ms[i].updatedAt > t
    {
      assert r[n - 1 - i] == ms[i];
    }
    CountLaterThreshold(ms, t, n - len);
  }

  /** One message, updated after the cursor: the scan as written reports nothing
      unread, the intended scan reports that message. */
  lemma ScanSkipsFirstMessage()
    ensures var ms := [MessageRow(1, Int(7), Str("hi"), 10, 10)];
            var ps := [ParticipantRow(1, 8, Some(5), None, None, None)];
            && UnreadMessages(ms, ps, 1, 8) == Ok([])
            && LaterMessagesNewestFirst(ms, 5) == ms
  {
    var ms := [MessageRow(1, Int(7), Str("hi"), 10, 10)];
    var ps := [ParticipantRow(1, 8, Some(5), None, None, None)];
    assert MessagesOf(ms, 1) == ms;
    assert FindParticipant(ps, 1, 8) == Some(0);
    assert LaterMessagesNewestFirst(ms[..0], 5) == [];
  }

  /** After `markAsRead` at `now`, a chronological thread's unread count is the
      number of its messages, after the first, updated later than `now`. */
  lemma UnreadCountAfterMarkAsRead(ms: seq<MessageRow>, ps: seq<ParticipantRow>, threadId: int, userId: UserId, now: Time)
    requires FindParticipant(ps, threadId, userId).Some?
    requires MessagesOf(ms, threadId) != [] && Chronological(MessagesOf(ms, threadId))
    ensures var u := UnreadMessages(ms, MarkedAsRead(ps, threadId, userId, now), threadId, userId);
            u.Ok? && |u.value| == CountLater(MessagesOf(ms, threadId)[1..], now)
  {
    var qs := MarkedAsRead(ps, threadId, userId, now);
    FindParticipantUnchanged(ps, qs, threadId, userId);
    ChronologicalScanCount(MessagesOf(ms, threadId), now);
  }
}
