/** The user side of the package: the threads a user belongs to, which of them
    are unread, and the lazy materialisation of broadcast threads into
    participant rows behind a per-user cursor kept in the cache. */
module Messagable {
  import opened Php
  import opened Storage
  import opened Thread

  /** The part of the user model the trait reads: its id and creation time. */
  datatype User = User(id: UserId, createdAt: Time)

  // ---------------------------------------------------------------------------
  // Queries: filtering and `latest()` ordering

  /** The rows of `s` that satisfy `keep`, in their stored order (a WHERE clause). */
  function Filter<T>(s: seq<T>, keep: T -> bool): (r: seq<T>)
    ensures |r| <= |s|
  {
    if s == [] then []
    else (if keep(s[0]) then [s[0]] else []) + Filter(s[1..], keep)
  }

  lemma {:induction false} FilterMembers<T>(s: seq<T>, keep: T -> bool)
    ensures forall x :: x in Filter(s, keep) <==> x in s && keep(x)
  {
    if s != [] {
      FilterMembers(s[1..], keep);
      assert forall x :: x in s <==> x == s[0] || x in s[1..];
    }
  }

  /** A WHERE clause keeps every copy of a row it keeps: each row occurs as often
      as in the input when it passes, and not at all otherwise. */
  lemma {:induction false} FilterMultiset<T(!new)>(s: seq<T>, keep: T -> bool)
    ensures forall x :: multiset(Filter(s, keep))[x] == if keep(x) then multiset(s)[x] else 0
  {
    if s != [] {
      FilterMultiset(s[1..], keep);
      assert multiset(s) == multiset{s[0]} + multiset(s[1..]) by {
        assert s == [s[0]] + s[1..];
      }
    }
  }

  /** Filtering two orderings of the same rows keeps the same number of rows. */
  lemma FilterPermutedLength<T(!new)>(s: seq<T>, t: seq<T>, keep: T -> bool)
    requires multiset(s) == multiset(t)
    ensures |Filter(s, keep)| == |Filter(t, keep)|
  {
    FilterMultiset(s, keep);
    FilterMultiset(t, keep);
    var a, b := multiset(Filter(s, keep)), multiset(Filter(t, keep));
    forall x
      ensures a[x] == b[x]
    {
    }
    assert a == b;
    assert |Filter(s, keep)| == |a| && |Filter(t, keep)| == |b|;
  }

  lemma EmptyWithoutMembers<T>(s: seq<T>)
    ensures (forall x :: x !in s) ==> s == []
  {
    if s != [] {
      assert s[0] in s;
    }
  }

  predicate SortedNewestFirst<T>(s: seq<T>, key: T -> int)
  {
    forall i, j :: 0 <= i < j < |s| ==> key(s[i]) >= key(s[j])
  }

  /** Where `x` goes in a newest-first list: after every row at least as new. */
  function InsertionPoint<T>(x: T, s: seq<T>, key: T -> int): (p: nat)
    ensures p <= |s|
    ensures forall i :: 0 <= i < p ==> key(s[i]) >= key(x)
    ensures p < |s| ==> key(s[p]) < key(x)
  {
    if s == [] || key(s[0]) < key(x) then 0 else 1 + InsertionPoint(x, s[1..], key)
  }

  function InsertNewest<T>(x: T, s: seq<T>, key: T -> int): (r: seq<T>)
  {
    var p := InsertionPoint(x, s, key);
    s[..p] + [x] + s[p..]
  }

  /** Where each row lands after an insertion. */
  lemma InsertNewestLayout<T>(x: T, s: seq<T>, key: T -> int)
    ensures var p := InsertionPoint(x, s, key);
            var r := InsertNewest(x, s, key);
            && |r| == |s| + 1 && r[p] == x
            && (forall k :: 0 <= k < p ==> r[k] == s[k])
            && (forall k :: p < k < |r| ==> r[k] == s[k - 1])
  {
  }

  /** An insertion adds exactly the one row. */
  lemma InsertNewestCounts<T>(x: T, s: seq<T>, key: T -> int)
    ensures multiset(InsertNewest(x, s, key)) == multiset(s) + multiset{x}
    ensures |InsertNewest(x, s, key)| == |s| + 1
  {
    var p := InsertionPoint(x, s, key);
    assert s == s[..p] + s[p..];
  }

  /** In a newest-first list, every row from the first older one on is older. */
  lemma OlderFrom<T>(x: T, s: seq<T>, p: nat, key: T -> int)
    requires SortedNewestFirst(s, key) && p <= |s|
    requires p < |s| ==> key(s[p]) < key(x)
    ensures forall k :: p <= k < |s| ==> key(s[k]) < key(x)
  {
    forall k | p <= k < |s|
      ensures key(s[k]) < key(x)
    {
      assert key(s[k]) <= key(s[p]);
    }
  }

  /** An insertion keeps a newest-first list sorted. */
  lemma InsertNewestKeepsOrder<T>(x: T, s: seq<T>, key: T -> int)
    requires SortedNewestFirst(s, key)
    ensures SortedNewestFirst(InsertNewest(x, s, key), key)
  {
    var p := InsertionPoint(x, s, key);
    InsertNewestLayout(x, s, key);
    OlderFrom(x, s, p, key);
    SortedAround(x, s, InsertNewest(x, s, key), p, key);
  }

  /** A row placed between the rows at least as new and the rows strictly older
      keeps a newest-first list sorted. */
  lemma SortedAround<T>(x: T, s: seq<T>, r: seq<T>, p: nat, key: T -> int)
    requires SortedNewestFirst(s, key) && p <= |s|
    requires |r| == |s| + 1 && r[p] == x
    requires forall k :: 0 <= k < p ==> r[k] == s[k] && key(s[k]) >= key(x)
    requires forall k :: p < k < |r| ==> r[k] == s[k - 1] && key(s[k - 1]) < key(x)
    ensures SortedNewestFirst(r, key)
  {
    forall i, j | 0 <= i < j < |r|
      ensures key(r[i]) >= key(r[j])
    {
      if j < p {
        assert key(s[i]) >= key(s[j]);
      } else if i > p {
        assert key(s[i - 1]) >= key(s[j - 1]);
      }
    }
  }

  /** ORDER BY key DESC as a stable insertion sort: rows with equal keys keep
      their stored order. */
  function NewestFirst<T>(s: seq<T>, key: T -> int): seq<T>
  {
    if s == [] then [] else InsertNewest(s[|s| - 1], NewestFirst(s[..|s| - 1], key), key)
  }

  /** The ordering is a permutation of the rows, newest first. */
  lemma NewestFirstSorts<T>(s: seq<T>, key: T -> int)
    ensures |NewestFirst(s, key)| == |s|
    ensures multiset(NewestFirst(s, key)) == multiset(s)
    ensures SortedNewestFirst(NewestFirst(s, key), key)
  {
    NewestFirstPermutes(s, key);
    NewestFirstSorted(s, key);
  }

  lemma {:induction false} NewestFirstPermutes<T>(s: seq<T>, key: T -> int)
    ensures |NewestFirst(s, key)| == |s|
    ensures multiset(NewestFirst(s, key)) == multiset(s)
  {
    if s != [] {
      var init, last := s[..|s| - 1], s[|s| - 1];
      var sortedInit := NewestFirst(init, key);
      assert multiset(s) == multiset(init) + multiset{last} by {
        assert s == init + [last];
      }
      assert NewestFirst(s, key) == InsertNewest(last, sortedInit, key);
      InsertNewestCounts(last, sortedInit, key);
      NewestFirstPermutes(init, key);
    }
  }

  lemma {:induction false} NewestFirstSorted<T>(s: seq<T>, key: T -> int)
    ensures SortedNewestFirst(NewestFirst(s, key), key)
  {
    if s != [] {
      var init := s[..|s| - 1];
      NewestFirstSorted(init, key);
      InsertNewestKeepsOrder(s[|s| - 1], NewestFirst(init, key), key);
    }
  }

  /** Ordering adds and drops no row. */
  lemma NewestFirstMembers<T>(s: seq<T>, key: T -> int)
    ensures forall x :: x in NewestFirst(s, key) <==> x in s
  {
    NewestFirstSorts(s, key);
    var r := NewestFirst(s, key);
    forall x: T
      ensures x in r <==> x in s
    {
      assert x in r <==> x in multiset(r);
      assert x in s <==> x in multiset(s);
    }
  }

  /** `latest()->first()`: a newest row, if there is any row. */
  function Newest<T(!new)>(s: seq<T>, key: T -> int): (r: Option<T>)
    ensures r.None? <==> s == []
    ensures r.Some? ==> r.value in s && forall y :: y in s ==> key(y) <= key(r.value)
  {
    if s == [] then None
    else
      var sorted := NewestFirst(s, key);
      NewestFirstSorts(s, key);
      NewestFirstMembers(s, key);
      SortedHeadIsNewest(sorted, key);
      Some(sorted[0])
  }

  lemma SortedHeadIsNewest<T>(s: seq<T>, key: T -> int)
    requires s != [] && SortedNewestFirst(s, key)
    ensures s[0] in s && forall y :: y in s ==> key(y) <= key(s[0])
  {
    forall y | y in s
      ensures key(y) <= key(s[0])
    {
      var j :| 0 <= j < |s| && s[j] == y;
      if j > 0 {
        assert key(s[0]) >= key(s[j]);
      }
    }
  }

  function CreatedAt(t: ThreadRow): int { t.createdAt }

  function ViewCreatedAt(v: ThreadView): int { v.row.createdAt }

  // ---------------------------------------------------------------------------
  // The `threads` relation and unread threads

  /** The live (not soft-deleted) thread with this id, if any. */
  function LiveThread(ts: seq<ThreadRow>, id: int): (r: Option<ThreadRow>)
    ensures r.Some? ==> r.value in ts && r.value.id == id && r.value.deletedAt.None?
    ensures r.None? ==> forall t :: t in ts ==> !(t.id == id && t.deletedAt.None?)
  {
    if ts == [] then None
    else if ts[0].id == id && ts[0].deletedAt.None? then Some(ts[0])
    else LiveThread(ts[1..], id)
  }

  /** The join of the user's participant rows with live threads, in participant
      order. The pivot join applies no soft-delete scope to participant rows. */
  function Memberships(ts: seq<ThreadRow>, ps: seq<ParticipantRow>, userId: UserId): (r: seq<ThreadView>)
    ensures |r| <= |ps|
    ensures forall v :: v in r ==> v.pivot.Some? && v.row in ts && v.row.deletedAt.None?
  {
    if ps == [] then []
    else
      var rest := Memberships(ts, ps[1..], userId);
      match LiveThread(ts, ps[0].threadId)
      case Some(t) =>
        if ps[0].userId == userId then [ThreadView(t, Some(Pivot(ps[0].lastRead)))] + rest else rest
      case None => rest
  }

  /** Every joined row is a live thread carrying the pivot of one of the user's
      participant rows, and every participant row of the user on a live thread,
      trashed or not, is joined. */
  lemma {:induction false} MembershipsShape(ts: seq<ThreadRow>, ps: seq<ParticipantRow>, userId: UserId)
    ensures forall v :: v in Memberships(ts, ps, userId) ==>
              v.pivot.Some? && v.row in ts && v.row.deletedAt.None?
    ensures forall v :: v in Memberships(ts, ps, userId) ==>
              exists p :: p in ps && p.userId == userId && LiveThread(ts, p.threadId).Some?
                          && v == ThreadView(LiveThread(ts, p.threadId).value, Some(Pivot(p.lastRead)))
    ensures forall p :: p in ps && p.userId == userId && LiveThread(ts, p.threadId).Some? ==>
              ThreadView(LiveThread(ts, p.threadId).value, Some(Pivot(p.lastRead))) in Memberships(ts, ps, userId)
  {
    if ps != [] {
      MembershipsShape(ts, ps[1..], userId);
      assert forall p :: p in ps <==> p == ps[0] || p in ps[1..];
      var rest := Memberships(ts, ps[1..], userId);
      forall v | v in Memberships(ts, ps, userId)
        ensures exists p :: p in ps && p.userId == userId && LiveThread(ts, p.threadId).Some?
                            && v == ThreadView(LiveThread(ts, p.threadId).value, Some(Pivot(p.lastRead)))
      {
        if v !in rest {
          assert ps[0] in ps;
        }
      }
    }
  }

  /** `threads()`: the user's joined threads, each as often as joined, newest-created first. */
  function UserThreads(ts: seq<ThreadRow>, ps: seq<ParticipantRow>, userId: UserId): (r: seq<ThreadView>)
    ensures multiset(r) == multiset(Memberships(ts, ps, userId))
    ensures SortedNewestFirst(r, ViewCreatedAt)
  {
    NewestFirstSorts(Memberships(ts, ps, userId), ViewCreatedAt);
    NewestFirst(Memberships(ts, ps, userId), ViewCreatedAt)
  }

  /** The condition `unreadThreads()` adds on the pivot. */
  predicate ViewUnread(v: ThreadView)
  {
    v.pivot.Some? && UnreadSince(v.row.updatedAt, v.pivot.value.lastRead)
  }

  /** `unreadThreads()`: the user's threads whose pivot says unread. */
  function UnreadThreads(ts: seq<ThreadRow>, ps: seq<ParticipantRow>, userId: UserId): (r: seq<ThreadView>)
    ensures forall v :: v in r <==> v in Memberships(ts, ps, userId) && ViewUnread(v)
    ensures |r| == |Filter(Memberships(ts, ps, userId), ViewUnread)|
  {
    var m := Memberships(ts, ps, userId);
    NewestFirstMembers(m, ViewCreatedAt);
    FilterMembers(UserThreads(ts, ps, userId), ViewUnread);
    FilterPermutedLength(UserThreads(ts, ps, userId), m, ViewUnread);
    Filter(UserThreads(ts, ps, userId), ViewUnread)
  }

  /** Ordering changes no membership: the user's threads are the joined rows,
      and the unread threads are the joined rows whose pivot says unread. */
  lemma UnreadThreadsMembers(ts: seq<ThreadRow>, ps: seq<ParticipantRow>, userId: UserId)
    ensures forall v :: v in UserThreads(ts, ps, userId) <==> v in Memberships(ts, ps, userId)
    ensures forall v :: v in UnreadThreads(ts, ps, userId) <==> v in Memberships(ts, ps, userId) && ViewUnread(v)
    ensures |UnreadThreads(ts, ps, userId)| <= |Memberships(ts, ps, userId)|
  {
    var m := Memberships(ts, ps, userId);
    NewestFirstSorts(m, ViewCreatedAt);
    NewestFirstMembers(m, ViewCreatedAt);
    FilterMembers(UserThreads(ts, ps, userId), ViewUnread);
  }

  /** Among the user's threads, the unread ones are exactly those that the
      thread's own `isUnread` reports unread from the loaded pivot. */
  lemma UnreadThreadsAgreeWithIsUnread(ts: seq<ThreadRow>, ps: seq<ParticipantRow>, userId: UserId, v: ThreadView)
    requires v in UserThreads(ts, ps, userId)
    ensures v in UnreadThreads(ts, ps, userId) <==> IsUnreadAsWritten(v) == Ok(true)
  {
    UnreadThreadsMembers(ts, ps, userId);
    MembershipsShape(ts, ps, userId);
  }

  /** `newThreadsCount()`. */
  function NewThreadsCount(ts: seq<ThreadRow>, ps: seq<ParticipantRow>, userId: UserId): (n: nat)
    ensures n == |Filter(Memberships(ts, ps, userId), ViewUnread)|
    ensures n <= |Memberships(ts, ps, userId)|
    ensures n == 0 <==> forall v :: v in Memberships(ts, ps, userId) ==> !ViewUnread(v)
  {
    var u := UnreadThreads(ts, ps, userId);
    UnreadThreadsMembers(ts, ps, userId);
    assert u != [] ==> u[0] in u;
    |u|
  }

  /** `threadsWithNewMessages()`: the ids of the unread threads. */
  function ThreadsWithNewMessages(ts: seq<ThreadRow>, ps: seq<ParticipantRow>, userId: UserId): (r: seq<int>)
    ensures |r| == NewThreadsCount(ts, ps, userId)
    ensures forall v :: v in Memberships(ts, ps, userId) && ViewUnread(v) ==> v.row.id in r
    ensures forall k :: 0 <= k < |r| ==>
              exists v :: v in Memberships(ts, ps, userId) && ViewUnread(v) && v.row.id == r[k]
  {
    var u := UnreadThreads(ts, ps, userId);
    UnreadThreadsMembers(ts, ps, userId);
    var r := seq(|u|, i requires 0 <= i < |u| => u[i].row.id);
    forall v | v in u
      ensures v.row.id in r
    {
      var i :| 0 <= i < |u| && u[i] == v;
      assert r[i] == v.row.id;
    }
    forall k | 0 <= k < |r|
      ensures u[k] in Memberships(ts, ps, userId) && ViewUnread(u[k]) && u[k].row.id == r[k]
    {
      assert u[k] in u;
    }
    r
  }

  // ---------------------------------------------------------------------------
  // The broadcast cursor

  predicate IsBroadcastView(v: ThreadView)
  {
    v.row.toAll
  }

  /** Live broadcast threads created strictly before `time`. */
  function BroadcastsBefore(ts: seq<ThreadRow>, time: Time): seq<ThreadRow>
  {
    Filter(ts, LiveBroadcastBefore(time))
  }

  function LiveBroadcastBefore(time: Time): ThreadRow -> bool
  {
    (t: ThreadRow) => t.deletedAt.None? && t.toAll && t.createdAt < time
  }

  /** A broadcast thread among the user's own is a live broadcast thread. */
  lemma OwnBroadcastIsLive(ts: seq<ThreadRow>, ps: seq<ParticipantRow>, userId: UserId, v: ThreadView)
    requires v in Filter(Memberships(ts, ps, userId), IsBroadcastView)
    ensures v.row in ts && v.row.toAll && v.row.deletedAt.None?
  {
    FilterMembers(Memberships(ts, ps, userId), IsBroadcastView);
    MembershipsShape(ts, ps, userId);
  }

  /** The cursor computed on a cache miss: 0 or the id of a live broadcast thread. */
  function InitialCursor(ts: seq<ThreadRow>, ps: seq<ParticipantRow>, user: User): (r: int)
    ensures r == 0 || exists t :: t in ts && t.id == r && t.toAll && t.deletedAt.None?
  {
    match Newest(Filter(Memberships(ts, ps, user.id), IsBroadcastView), ViewCreatedAt)
    case Some(v) =>
      OwnBroadcastIsLive(ts, ps, user.id, v);
      v.row.id
    case None =>
      match Newest(BroadcastsBefore(ts, user.createdAt), CreatedAt)
      case Some(t) =>
        FilterMembers(ts, LiveBroadcastBefore(user.createdAt));
        t.id
      case None => 0
  }

  /** The initial cursor is the id of the newest broadcast thread the user
      belongs to, else of the newest broadcast thread created before the user,
      else 0. */
  lemma InitialCursorChoice(ts: seq<ThreadRow>, ps: seq<ParticipantRow>, user: User)
    ensures var r := InitialCursor(ts, ps, user);
            var own := Filter(Memberships(ts, ps, user.id), IsBroadcastView);
            var before := BroadcastsBefore(ts, user.createdAt);
            && (own != [] ==>
                  exists v :: (v in own && v.row.id == r &&
                               forall w :: w in own ==> w.row.createdAt <= v.row.createdAt))
            && (own == [] && before != [] ==>
                  exists t :: (t in before && t.id == r &&
                               forall u :: u in before ==> u.createdAt <= t.createdAt))
            && (own == [] && before == [] ==> r == 0)
  {
    var own := Filter(Memberships(ts, ps, user.id), IsBroadcastView);
    var before := BroadcastsBefore(ts, user.createdAt);
    if own != [] {
      var v := Newest(own, ViewCreatedAt).value;
      assert forall w :: w in own ==> ViewCreatedAt(w) <= ViewCreatedAt(v);
    } else if before != [] {
      var t := Newest(before, CreatedAt).value;
      assert forall u :: u in before ==> CreatedAt(u) <= CreatedAt(t);
    }
  }

  /** The user's own newest broadcast thread is live, a broadcast, and one of theirs. */
  lemma InitialCursorFromMembership(ts: seq<ThreadRow>, ps: seq<ParticipantRow>, user: User)
    requires Filter(Memberships(ts, ps, user.id), IsBroadcastView) != []
    ensures exists t :: t in ts && t.id == InitialCursor(ts, ps, user) && t.toAll && t.deletedAt.None?
  {
    var own := Filter(Memberships(ts, ps, user.id), IsBroadcastView);
    InitialCursorChoice(ts, ps, user);
    FilterMembers(Memberships(ts, ps, user.id), IsBroadcastView);
    MembershipsShape(ts, ps, user.id);
    var v :| v in own && v.row.id == InitialCursor(ts, ps, user);
    assert v.row in ts;
  }

  /** `rememberForever`: a cached cursor wins; a miss computes the initial one. */
  function CachedCursor(cache: map<UserId, int>, ts: seq<ThreadRow>, ps: seq<ParticipantRow>, user: User): (r: int)
    ensures user.id in cache ==> r == cache[user.id]
    ensures user.id !in cache ==> r == 0 || exists t :: t in ts && t.id == r && t.toAll && t.deletedAt.None?
  {
    if user.id in cache then cache[user.id] else InitialCursor(ts, ps, user)
  }

  method GetBroadcastLatestId(db: Backend, user: User) returns (latestId: int)
    modifies db`latestBroadcastId
    ensures latestId == CachedCursor(old(db.latestBroadcastId), db.threads, db.participants, user)
    ensures db.latestBroadcastId == old(db.latestBroadcastId)[user.id := latestId]
  {
    if user.id in db.latestBroadcastId {
      latestId := db.latestBroadcastId[user.id];
      assert db.latestBroadcastId == db.latestBroadcastId[user.id := latestId];
    } else {
      latestId := InitialCursor(db.threads, db.participants, user);
      db.CacheForever(user.id, latestId);
    }
  }

  method SetBroadcastLatestId(db: Backend, user: User, latestId: int)
    modifies db`latestBroadcastId
    ensures db.latestBroadcastId == old(db.latestBroadcastId)[user.id := latestId]
  {
    db.CacheForever(user.id, latestId);
  }

  // ---------------------------------------------------------------------------
  // Broadcast sync

  /** Live broadcast threads with an id above the cursor, in stored order. */
  function BroadcastsAfter(ts: seq<ThreadRow>, cursor: int): seq<ThreadRow>
  {
    Filter(ts, LiveBroadcastAfter(cursor))
  }

  function LiveBroadcastAfter(cursor: int): ThreadRow -> bool
  {
    (t: ThreadRow) => t.deletedAt.None? && t.toAll && t.id > cursor
  }

  /** The broadcast threads a sync materialises, newest-created first. */
  function PendingBroadcasts(ts: seq<ThreadRow>, cursor: int): seq<ThreadRow>
  {
    NewestFirst(BroadcastsAfter(ts, cursor), CreatedAt)
  }

  lemma PendingMembers(ts: seq<ThreadRow>, cursor: int)
    ensures forall t :: t in PendingBroadcasts(ts, cursor) <==> t in ts && t.deletedAt.None? && t.toAll && t.id > cursor
    ensures |PendingBroadcasts(ts, cursor)| == |BroadcastsAfter(ts, cursor)|
  {
    NewestFirstSorts(BroadcastsAfter(ts, cursor), CreatedAt);
    NewestFirstMembers(BroadcastsAfter(ts, cursor), CreatedAt);
    FilterMembers(ts, LiveBroadcastAfter(cursor));
  }

  /** The row materialised for a broadcast thread: unread, stamped with the
      thread's creation time, not trashed. */
  function SyncRow(t: ThreadRow, userId: UserId): ParticipantRow
  {
    ParticipantRow(t.id, userId, None, Some(t.createdAt), Some(t.createdAt), None)
  }

  function SyncRows(pending: seq<ThreadRow>, userId: UserId): (r: seq<ParticipantRow>)
  {
    seq(|pending|, k requires 0 <= k < |pending| => SyncRow(pending[k], userId))
  }

  /** The participants table and the cursor cache after a sync. */
  datatype Synced = Synced(participants: seq<ParticipantRow>, cache: map<UserId, int>)

  /** `loadBroadcastThreads()`: one row per pending broadcast thread, and the
      cursor moves to the first of them in newest-first order. */
  function Sync(ts: seq<ThreadRow>, ps: seq<ParticipantRow>, cache: map<UserId, int>, user: User): (r: Synced)
    ensures |r.participants| >= |ps| && r.participants[..|ps|] == ps
    ensures user.id in r.cache && forall u :: u in cache && u != user.id ==> u in r.cache && r.cache[u] == cache[u]
  {
    var cursor := CachedCursor(cache, ts, ps, user);
    var pending := PendingBroadcasts(ts, cursor);
    if pending == [] then Synced(ps, cache[user.id := cursor])
    else Synced(ps + SyncRows(pending, user.id), cache[user.id := pending[0].id])
  }

  /** A sync only appends rows, one per pending thread, and only moves the
      user's own cursor, never backwards. */
  lemma SyncFrame(ts: seq<ThreadRow>, ps: seq<ParticipantRow>, cache: map<UserId, int>, user: User)
    ensures var r := Sync(ts, ps, cache, user);
            var cursor := CachedCursor(cache, ts, ps, user);
            && user.id in r.cache && r.cache[user.id] >= cursor
            && (forall u :: u in cache && u != user.id ==> u in r.cache && r.cache[u] == cache[u])
            && r.participants[..|ps|] == ps
            && |r.participants| == |ps| + |BroadcastsAfter(ts, cursor)|
  {
    var cursor := CachedCursor(cache, ts, ps, user);
    var pending := PendingBroadcasts(ts, cursor);
    if pending != [] {
      PendingMembers(ts, cursor);
      assert pending[0] in pending;
    }
  }

  /** The rows a sync appends are the sync rows of the pending threads. */
  lemma SyncAppends(ts: seq<ThreadRow>, ps: seq<ParticipantRow>, cache: map<UserId, int>, user: User)
    ensures Sync(ts, ps, cache, user).participants[|ps|..]
            == SyncRows(PendingBroadcasts(ts, CachedCursor(cache, ts, ps, user)), user.id)
  {
  }

  /** Every pending thread has its row, and every row comes from a pending thread. */
  lemma SyncRowsCover(pending: seq<ThreadRow>, userId: UserId)
    ensures forall k :: 0 <= k < |SyncRows(pending, userId)| ==> pending[k] in pending
    ensures forall t :: t in pending ==> SyncRow(t, userId) in SyncRows(pending, userId)
  {
    forall t | t in pending
      ensures SyncRow(t, userId) in SyncRows(pending, userId)
    {
      var k :| 0 <= k < |pending| && pending[k] == t;
      assert SyncRows(pending, userId)[k] == SyncRow(t, userId);
    }
  }

  /** Each new row is the sync row of a live broadcast thread above the cursor,
      and each such thread gets one, so a non-broadcast thread never does. */
  lemma SyncMaterialisesPending(ts: seq<ThreadRow>, ps: seq<ParticipantRow>, cache: map<UserId, int>, user: User)
    ensures var cursor := CachedCursor(cache, ts, ps, user);
            var added := Sync(ts, ps, cache, user).participants[|ps|..];
            && (forall k :: 0 <= k < |added| ==> exists t ::
                  t in ts && t.deletedAt.None? && t.toAll && t.id > cursor && added[k] == SyncRow(t, user.id))
            && (forall t :: t in ts && t.deletedAt.None? && t.toAll && t.id > cursor ==> SyncRow(t, user.id) in added)
  {
    var cursor := CachedCursor(cache, ts, ps, user);
    var pending := PendingBroadcasts(ts, cursor);
    var added := Sync(ts, ps, cache, user).participants[|ps|..];
    SyncAppends(ts, ps, cache, user);
    SyncRowsCover(pending, user.id);
    PendingMembers(ts, cursor);
    forall k | 0 <= k < |added|
      ensures exists t :: t in ts && t.deletedAt.None? && t.toAll && t.id > cursor && added[k] == SyncRow(t, user.id)
    {
      var t := pending[k];
      assert added[k] == SyncRow(t, user.id);
    }
  }

  /** After a sync that added rows, the cursor is the id of a newest-created
      pending thread. */
  lemma SyncCursorIsNewestPending(ts: seq<ThreadRow>, ps: seq<ParticipantRow>, cache: map<UserId, int>, user: User)
    requires BroadcastsAfter(ts, CachedCursor(cache, ts, ps, user)) != []
    ensures var cursor := CachedCursor(cache, ts, ps, user);
            var pending := PendingBroadcasts(ts, cursor);
            && Sync(ts, ps, cache, user).cache[user.id] == pending[0].id
            && forall t :: t in pending ==> t.createdAt <= pending[0].createdAt
  {
    var cursor := CachedCursor(cache, ts, ps, user);
    var pending := PendingBroadcasts(ts, cursor);
    NewestFirstMembers(BroadcastsAfter(ts, cursor), CreatedAt);
    assert pending[0] == Newest(BroadcastsAfter(ts, cursor), CreatedAt).value;
  }

  /** With nothing pending, a sync inserts nothing and only remembers the cursor,
      and repeating it changes nothing. */
  lemma SyncWithoutPendingIsNoop(ts: seq<ThreadRow>, ps: seq<ParticipantRow>, cache: map<UserId, int>, user: User)
    requires forall t :: t in ts && t.deletedAt.None? && t.toAll ==> t.id <= CachedCursor(cache, ts, ps, user)
    ensures var r := Sync(ts, ps, cache, user);
            && r == Synced(ps, cache[user.id := CachedCursor(cache, ts, ps, user)])
            && Sync(ts, r.participants, r.cache, user) == r
  {
    var cursor := CachedCursor(cache, ts, ps, user);
    PendingMembers(ts, cursor);
    EmptyWithoutMembers(PendingBroadcasts(ts, cursor));
    var r := Sync(ts, ps, cache, user);
    assert CachedCursor(r.cache, ts, r.participants, user) == cursor;
    assert r.cache[user.id := cursor] == r.cache;
  }

  /** Thread ids that grow strictly with creation time. */
  predicate CreationOrdered(ts: seq<ThreadRow>)
  {
    forall a, b :: a in ts && b in ts && a.id < b.id ==> a.createdAt < b.createdAt
  }

  /** When no two threads share a creation time, a second sync right after a
      first changes nothing. */
  lemma SyncTwiceIsNoopWhenCreationOrdered(ts: seq<ThreadRow>, ps: seq<ParticipantRow>, cache: map<UserId, int>, user: User)
    requires CreationOrdered(ts)
    ensures var r := Sync(ts, ps, cache, user);
            Sync(ts, r.participants, r.cache, user) == r
  {
    var cursor := CachedCursor(cache, ts, ps, user);
    var r := Sync(ts, ps, cache, user);
    if BroadcastsAfter(ts, cursor) == [] {
      PendingMembers(ts, cursor);
      SyncWithoutPendingIsNoop(ts, ps, cache, user);
    } else {
      SyncCursorIsNewestPending(ts, ps, cache, user);
      var head := PendingBroadcasts(ts, cursor)[0];
      PendingMembers(ts, cursor);
      assert head in PendingBroadcasts(ts, cursor);
      assert CachedCursor(r.cache, ts, r.participants, user) == head.id;
      SyncWithoutPendingIsNoop(ts, r.participants, r.cache, user);
    }
  }

  /** Two broadcasts created in the same second, above a cursor of 4: the first
      sync moves the cursor to 5 only, so the second sync materialises thread 6
      again. */
  lemma SyncReplaysTiedThread()
    ensures var ts := [ThreadRow(5, Str("a"), "Msg", true, 100, 100, None),
                       ThreadRow(6, Str("b"), "Msg", true, 100, 100, None)];
            var user := User(9, 50);
            var r := Sync(ts, [], map[9 := 4], user);
            && r.participants == [SyncRow(ts[0], 9), SyncRow(ts[1], 9)]
            && r.cache == map[9 := 5]
            && Sync(ts, r.participants, r.cache, user).participants == r.participants + [SyncRow(ts[1], 9)]
  {
    var t5 := ThreadRow(5, Str("a"), "Msg", true, 100, 100, None);
    var t6 := ThreadRow(6, Str("b"), "Msg", true, 100, 100, None);
    var ts := [t5, t6];
    var user := User(9, 50);
    TiedPairPending(t5, t6);
    assert SyncRows([t5, t6], 9) == [SyncRow(t5, 9), SyncRow(t6, 9)];
    assert SyncRows([t6], 9) == [SyncRow(t6, 9)];
    var first := Synced([SyncRow(t5, 9), SyncRow(t6, 9)], map[9 := 5]);
    assert Sync(ts, [], map[9 := 4], user) == first by {
      assert CachedCursor(map[9 := 4], ts, [], user) == 4;
      assert map[9 := 4][9 := 5] == map[9 := 5];
    }
    assert CachedCursor(first.cache, ts, first.participants, user) == 5;
  }

  /** Two live broadcasts created in the same second, the second with the higher
      id: from below both ids both are pending in stored order; from the first
      id only the second is. */
  lemma TiedPairPending(t5: ThreadRow, t6: ThreadRow)
    requires t5.deletedAt.None? && t5.toAll && t6.deletedAt.None? && t6.toAll
    requires t5.createdAt == t6.createdAt && t5.id < t6.id
    ensures PendingBroadcasts([t5, t6], t5.id - 1) == [t5, t6]
    ensures PendingBroadcasts([t5, t6], t5.id) == [t6]
  {
    var ts := [t5, t6];
    assert BroadcastsAfter(ts, t5.id - 1) == [t5, t6] by {
      var keep := LiveBroadcastAfter(t5.id - 1);
      assert keep(t5) && keep(t6);
      assert ts[1..] == [t6] && [t6][1..] == [];
      assert Filter([t6], keep) == [t6] + Filter([], keep);
      assert Filter(ts, keep) == [t5] + Filter([t6], keep);
    }
    assert BroadcastsAfter(ts, t5.id) == [t6] by {
      var keep := LiveBroadcastAfter(t5.id);
      assert !keep(t5) && keep(t6);
      assert ts[1..] == [t6] && [t6][1..] == [];
      assert Filter([t6], keep) == [t6] + Filter([], keep);
      assert Filter(ts, keep) == [] + Filter([t6], keep);
    }
    NewestFirstSingle(t5, CreatedAt);
    NewestFirstSingle(t6, CreatedAt);
    assert InsertionPoint(t6, [t5], CreatedAt) == 1 by {
      assert [t5][1..] == [];
    }
    assert [t5, t6][..1] == [t5];
  }

  lemma NewestFirstSingle<T>(x: T, key: T -> int)
    ensures NewestFirst([x], key) == [x]
  {
    assert [x][..0] == [];
  }

  /** The largest id among some threads. */
  function MaxId(ts: seq<ThreadRow>): (m: int)
    requires ts != []
    ensures exists t :: t in ts && t.id == m
    ensures forall t :: t in ts ==> t.id <= m
  {
    if |ts| == 1 then ts[0].id
    else
      var rest := MaxId(ts[1..]);
      assert forall t :: t in ts[1..] ==> t in ts;
      assert forall t :: t in ts ==> t == ts[0] || t in ts[1..];
      if ts[0].id >= rest then ts[0].id else rest
  }

  /** The sync as evidently intended: the same rows, but the cursor moves to the
      largest materialised id. */
  function SyncToMaxId(ts: seq<ThreadRow>, ps: seq<ParticipantRow>, cache: map<UserId, int>, user: User): (r: Synced)
    ensures user.id in r.cache && r.cache[user.id] >= CachedCursor(cache, ts, ps, user)
    ensures var c := CachedCursor(cache, ts, ps, user);
            var p := PendingBroadcasts(ts, c);
            r.cache[user.id] == (if p == [] then c else MaxId(p))
    ensures forall t :: t in PendingBroadcasts(ts, CachedCursor(cache, ts, ps, user)) ==> t.id <= r.cache[user.id]
    ensures r.cache.Keys == cache.Keys + {user.id}
    ensures forall u :: u in cache && u != user.id ==> r.cache[u] == cache[u]
    ensures r.participants == Sync(ts, ps, cache, user).participants
  {
    var cursor := CachedCursor(cache, ts, ps, user);
    var pending := PendingBroadcasts(ts, cursor);
    if pending == [] then Synced(ps, cache[user.id := cursor])
    else
      MaxPendingAboveCursor(ts, cursor);
      Synced(ps + SyncRows(pending, user.id), cache[user.id := MaxId(pending)])
  }

  lemma MaxPendingAboveCursor(ts: seq<ThreadRow>, cursor: int)
    requires PendingBroadcasts(ts, cursor) != []
    ensures MaxId(PendingBroadcasts(ts, cursor)) > cursor
  {
    var pending := PendingBroadcasts(ts, cursor);
    PendingMembers(ts, cursor);
    assert pending[0] in pending;
  }

  /** Nothing is pending above a cursor at least the largest pending id. */
  lemma NothingPendingPastMax(ts: seq<ThreadRow>, cursor: int, next: int)
    requires next >= cursor
    requires PendingBroadcasts(ts, cursor) != [] ==> next >= MaxId(PendingBroadcasts(ts, cursor))
    ensures PendingBroadcasts(ts, next) == []
  {
    PendingMembers(ts, cursor);
    PendingMembers(ts, next);
    EmptyWithoutMembers(PendingBroadcasts(ts, next));
  }

  /** With the cursor cached and nothing above it, the sync changes nothing. */
  lemma SyncToMaxIdAtRest(ts: seq<ThreadRow>, s: Synced, user: User)
    requires user.id in s.cache && PendingBroadcasts(ts, s.cache[user.id]) == []
    ensures SyncToMaxId(ts, s.participants, s.cache, user) == s
  {
    assert s.cache[user.id := s.cache[user.id]] == s.cache;
  }

  /** With the cursor at the largest id, a second sync changes nothing, whatever
      the creation times. */
  lemma SyncToMaxIdTwiceIsNoop(ts: seq<ThreadRow>, ps: seq<ParticipantRow>, cache: map<UserId, int>, user: User)
    ensures var r := SyncToMaxId(ts, ps, cache, user);
            SyncToMaxId(ts, r.participants, r.cache, user) == r
  {
    var cursor := CachedCursor(cache, ts, ps, user);
    var pending := PendingBroadcasts(ts, cursor);
    var r := SyncToMaxId(ts, ps, cache, user);
    var next := if pending == [] then cursor else MaxId(pending);
    assert r.cache == cache[user.id := next];
    NothingPendingPastMax(ts, cursor, next);
    SyncToMaxIdAtRest(ts, r, user);
  }

  /** The sync, read at the cursor the cache yields. */
  lemma SyncAtCursor(ts: seq<ThreadRow>, ps: seq<ParticipantRow>, cache: map<UserId, int>, user: User, cursor: int)
    requires cursor == CachedCursor(cache, ts, ps, user)
    ensures var pending := PendingBroadcasts(ts, cursor);
            Sync(ts, ps, cache, user)
            == if pending == [] then Synced(ps, cache[user.id := cursor])
               else Synced(ps + SyncRows(pending, user.id), cache[user.id := pending[0].id])
  {
  }

  /** The `foreach` of `loadBroadcastThreads`: one row array per pending thread, in order. */
  method BuildSyncRows(threads: seq<ThreadRow>, userId: UserId) returns (participants: seq<ParticipantRow>)
    ensures participants == SyncRows(threads, userId)
  {
    participants := [];
    for i := 0 to |threads|
      invariant |participants| == i
      invariant forall k :: 0 <= k < i ==> participants[k] == SyncRow(threads[k], userId)
    {
      participants := participants + [SyncRow(threads[i], userId)];
    }
  }

  /** `loadBroadcastThreads()` on a user. */
  method LoadBroadcastThreads(db: Backend, user: User)
    modifies db`participants, db`journal, db`latestBroadcastId
    ensures Synced(db.participants, db.latestBroadcastId)
            == Sync(old(db.threads), old(db.participants), old(db.latestBroadcastId), user)
    ensures db.journal == old(db.journal) + (if db.participants == old(db.participants) then [] else [Write(ParticipantTable)])
  {
    ghost var cache0 := db.latestBroadcastId;
    var latestId := GetBroadcastLatestId(db, user);
    SyncAtCursor(db.threads, db.participants, cache0, user, latestId);
    var newBroadcastThreads := PendingBroadcasts(db.threads, latestId);
    var participants := BuildSyncRows(newBroadcastThreads, user.id);
    if |participants| > 0 {
      db.InsertParticipants(participants);
      SetBroadcastLatestId(db, user, participants[0].threadId);
      assert db.latestBroadcastId == cache0[user.id := newBroadcastThreads[0].id];
      assert |db.participants| > |old(db.participants)|;
    }
  }
}
