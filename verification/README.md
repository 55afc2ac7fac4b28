# laravel-messenger, modelled in Dafny

This project models the core of the laravel-messenger package, a Laravel package for user-to-user and broadcast messaging.

- **The message builder** (`src/Messenger.php`, module `Messenger`, class `Messenger.Messenger`). This is a fluent object holding:
  - a message array;
  - the recipients;
  - a broadcast flag, a store flag and a notify flag.

  `send` checks the flags. It then validates the merged parameters in key order. After that it stores a thread, a message and the participant rows, and only then fires one notification event per recipient, or one for a broadcast. The magic `__call` setter rewrites names such as `withSender` or `andUrl` onto message keys.
- **A thread's read cursors and membership** (`src/Models/Thread.php`, module `Thread`). This covers:
  - finding a user's participant row;
  - the unread test;
  - marking a thread as read;
  - the backward scan that lists unread messages, and its count;
  - adding participants (an array of ids, or one id through `firstOrCreate`);
  - restoring soft-deleted participants;
  - the membership test;
  - the list of participant ids.
- **The user side** (`src/Traits/Messagable.php`, module `Messagable`). This covers:
  - the user's threads, newest first;
  - the unread threads, their count and their ids;
  - the lazy broadcast sync. A per-user cursor, cached forever, holds a thread id. On a cache miss it starts as the id of the user's newest broadcast thread, else of the newest broadcast thread created before the user (which the user need not have a row for), else 0. Each sync adds one participant row per live broadcast thread with a larger id, and then moves the cursor to the newest-created of those threads.

The framework's state is one `Storage.Backend` object: the `threads`, `messages` and `participants` tables as sequences, the cursor cache as a map, and the fired events in order. A ghost journal records every table write and every fired event in order, so that "stored before notified" can be stated. The module `Php` holds the PHP notions the code relies on:
- the values its arrays hold;
- `empty()`;
- the exceptions a call can end in. A PHP notice (undefined index, undefined offset, property of null) is one of them, because the framework's error handler turns it into an exception.

Each method that changes state is proved against a pure function of the old state (`MarkedAsRead`, `WithParticipants`, `AllActivated`, `UnreadMessages`, `Sync`, `StoreStep`, `SendSpec`). The package's promises are proved as lemmas about those functions.

The model follows the code as written, including these behaviours:
- `markAsRead` on a user without a participant row logs and returns. It does not fail.
- The array branch of `addParticipants` inserts one row per element, duplicates included. The recipients `[5, 5, 7]` give three rows.
- The single-id branch creates a new row rather than restoring a soft-deleted one.
- The broadcast sync moves the cursor to the first pending thread in newest-created order, which need not be the largest id.
- `userUnreadMessages` never examines the thread's first message.
- `isUnread` never looks up the participant row.

The last three are listed under Findings.

## Model

| member | source | states |
|---|---|---|
| Thread.Selects | src/Models/Thread.php:75-78 | The query `participants($userId)` sees the live rows of this thread. With a non-empty id it sees exactly that user's live rows, the rows `hasParticipant` counts. With an empty id the `ofUser` scope leaves it unfiltered. |
| Thread.FindParticipant | src/Models/Thread.php:273-276 | The lookup finds the first participant row of this thread that is not soft-deleted and belongs to the user (or to anyone when the id is empty). None means no such row exists (`firstOrFail` throws). |
| Thread.FindParticipantUnchanged | src/Models/Thread.php:273-276 | Rewriting rows without changing which ones the query sees leaves the lookup's answer unchanged. |
| Thread.IsUnreadAsWritten | src/Models/Thread.php:244-262 | As written, `isUnread` fails exactly when the thread has no pivot (a property read of null). Otherwise it is true iff the pivot's `last_read` is null or the thread was updated after it. |
| Thread.IsUnread | src/Models/Thread.php:244-262 | The intended `isUnread`: with a pivot, true iff `last_read` is null or older than the update. Without one, the same test on the first participant row the lookup finds, and false when there is none. |
| Thread.IsUnreadAgreesWithPivot | src/Models/Thread.php:247-254 | With a pivot, the code as written and the intended reading give the same answer. |
| Thread.IsUnreadNeverLooksUpParticipant | src/Models/Thread.php:247-252 | Counterexample: for a thread without a pivot whose participant read it after its update, the code as written fails where the intended reading answers false. |
| Thread.ReadAt | src/Models/Thread.php:230 | Updating `last_read` to now keeps the row's thread, user, creation time and soft-delete stamp. The row is unchanged iff `last_read` already was now. |
| Thread.MarkedAsRead | src/Models/Thread.php:226-235 | `markAsRead` sets the found row's `last_read` to now and changes no other row. When no row is found, the table is unchanged (logged, not thrown). |
| Thread.MarkAsRead | src/Models/Thread.php:226-235 | The table after the call is `MarkedAsRead` of the table before. The journal gains one participant write exactly when the table changed. |
| Thread.MarkAsReadClearsUnread | src/Models/Thread.php:226-262 | After `markAsRead` at a time no earlier than the thread's update, the thread is not unread for that user by the corrected `isUnread` (`Thread.IsUnread`). |
| Thread.ActiveRowCount | src/Models/Thread.php:325-326 | The count of the user's active rows in the thread is positive iff such a row exists. |
| Thread.HasParticipant | src/Models/Thread.php:323-331 | `hasParticipant` is true iff the user has a row in this thread that is not soft-deleted. |
| Thread.RowsOfThread | src/Models/Thread.php:138 | `participants()->withTrashed()` holds the rows of this thread, soft-deleted ones included, and no other rows. |
| Thread.RowsOfThreadMultiset | src/Models/Thread.php:138 | No copy is dropped: each row of the thread occurs as often as in the table, and rows of other threads not at all. |
| Thread.RowsOfThreadAppend | src/Models/Thread.php:138 | Table order is kept: the rows of two stretches of the table, one after the other, are the first stretch's rows followed by the second's. |
| Thread.ParticipantsUserIds | src/Models/Thread.php:136-145 | The result is the user id of every row of the thread, in order and duplicates kept. The given id follows them exactly when it is not empty. |
| Thread.ParticipantsUserIdsIncludeTrashed | src/Models/Thread.php:136-145 | A soft-deleted row still contributes its user id. |
| Thread.ParticipantsUserIdsKeepDuplicates | src/Models/Thread.php:136-145 | Rows of users 5, 5 and 7 give the ids `[5, 5, 7]`; nothing is de-duplicated. |
| Thread.NewRows | src/Models/Thread.php:202-210 | The array branch builds one row per id, in order, carrying only the thread and the user. |
| Thread.WithParticipants | src/Models/Thread.php:200-218 | Existing rows are kept and new ones appended. A non-empty array appends exactly one row per element, duplicates kept. A single non-empty id adds at most one row, none when the user is already active, and the user is active afterwards. Empty input changes nothing. |
| Thread.AddOneParticipantIdempotent | src/Models/Thread.php:212-217 | Adding the same single id a second time, at any time, changes nothing (`firstOrCreate`). |
| Thread.ArrayBranchKeepsDuplicates | src/Models/Thread.php:202-211 | The ids `[5, 5, 7]` add three rows, two of them for user 5. |
| Thread.AddParticipants | src/Models/Thread.php:200-218 | The table after the call is `WithParticipants` of the table before. The journal gains one participant write exactly when the table changed. |
| Thread.Restored | src/Models/Thread.php:285 | `restore()` leaves the row active, keeping its thread, user, cursor and creation time. It changes the row iff the row was soft-deleted. |
| Thread.AllActivated | src/Models/Thread.php:281-287 | After restoring, every row of the thread is active and keeps its user and cursor. Rows of other threads and rows that were already active are untouched. |
| Thread.ActivateAllIdempotent | src/Models/Thread.php:281-287 | Activating twice, at any two times, is the same as activating once. |
| Thread.ActivatedRowsAreParticipants | src/Models/Thread.php:281-331 | After activation, every user with any row in the thread passes `hasParticipant`. |
| Thread.TrashedRowCount | src/Models/Thread.php:284-285 | The number of soft-deleted rows of the thread, at most the table's size, is zero iff the thread has no soft-deleted row. |
| Thread.ActivateAllParticipants | src/Models/Thread.php:281-287 | The loop leaves the table equal to `AllActivated` of the table before. The journal keeps its old entries and gains exactly one participant write per soft-deleted row of the thread. |
| Thread.MessagesOf | src/Models/Thread.php:43-46 | The `messages` relation holds no more messages than the table. |
| Thread.MessagesOfMultiset | src/Models/Thread.php:43-46 | The `messages` relation keeps every message of the thread, as often as it is stored, and no message of another thread. |
| Thread.MessagesOfMembers | src/Models/Thread.php:43-46 | The `messages` relation holds exactly the thread's messages. |
| Thread.ScanDown | src/Models/Thread.php:350-359 | The backward scan from index i returns at most i messages, so index 0 never contributes. |
| Thread.ScanDownShape | src/Models/Thread.php:350-359 | The scan returns the messages from index i downward, newest first, each updated after the cursor. It stops at the first message that is not later, and never reaches index 0. |
| Thread.UnreadMessages | src/Models/Thread.php:340-362 | `userUnreadMessages` ends in ModelNotFound exactly when the thread has no live participant row of the user (of any user, when the id is empty). |
| Thread.UnreadMessagesOfThread | src/Models/Thread.php:340-362 | Every message reported unread is a message of this thread. |
| Thread.NullCursorReturnsAllMessages | src/Models/Thread.php:347-349 | With a null `last_read`, all of the thread's messages are returned in stored order. |
| Thread.CursorScanShape | src/Models/Thread.php:350-361 | With a cursor, an empty thread makes the call read offset -1 and fail. Otherwise the result has fewer elements than the thread has messages. It is the thread's newest messages, newest first, each after the cursor, and the message where the scan stopped is not after it. |
| Thread.UserUnreadMessages | src/Models/Thread.php:340-362 | The method returns `UnreadMessages` of the tables. |
| Thread.ScanUnread | src/Models/Thread.php:350-359 | The `while ($i)` loop collects exactly `ScanDown` from the last index. |
| Thread.UserUnreadMessagesCount | src/Models/Thread.php:371-374 | The count is the length of the unread list. A missing participant's not-found error propagates. |
| Thread.ChronologicalScanCount | src/Models/Thread.php:350-359 | On a thread stored in update order, the scan finds every message after the cursor except the first message. |
| Thread.LaterMessagesNewestFirst | src/Models/Thread.php:350-359 | The intended scan: the messages after the cursor, newest first, down to and including index 0. It stops only at a message that is not later. |
| Thread.ChronologicalIntendedCount | src/Models/Thread.php:350-359 | On a thread stored in update order, the intended scan finds every message after the cursor. |
| Thread.ScanSkipsFirstMessage | src/Models/Thread.php:352 | Counterexample: a thread with one message newer than the cursor reports nothing unread, while the intended scan reports that message. |
| Thread.UnreadCountAfterMarkAsRead | src/Models/Thread.php:371-374 | After `markAsRead` at now, a chronological thread's unread count is the number of its messages, after the first, updated later than now. |
| Messagable.NewestFirstSorts | src/Traits/Messagable.php:35 | `latest()` returns a permutation of the rows, sorted newest-created first. |
| Messagable.Newest | src/Traits/Messagable.php:63-65 | `latest()->first()` is none iff there is no row. Otherwise it is one of the rows, and no row is newer. |
| Messagable.LiveThread | src/Traits/Messagable.php:83-86 | A joined thread is a live thread with that id. None means there is no live thread with that id. |
| Messagable.Memberships | src/Traits/Messagable.php:80-87 | The join has at most one thread per participant row. Each joined thread is live and carries a pivot. |
| Messagable.MembershipsShape | src/Traits/Messagable.php:80-87 | Every joined thread is live and carries the user's pivot. Every row of the user on a live thread, soft-deleted or not, is joined. |
| Messagable.UserThreads | src/Traits/Messagable.php:80-87 | `threads()` holds the joined threads, each as often as joined, sorted newest-created first. |
| Messagable.UnreadThreads | src/Traits/Messagable.php:94-99 | A thread is in `unreadThreads()` iff it is joined and its pivot `last_read` is null or older than its update. The list has as many entries as the joined rows that pass this test. |
| Messagable.UnreadThreadsMembers | src/Traits/Messagable.php:94-99 | The user's threads are exactly the joined rows. The unread threads are exactly those whose pivot `last_read` is null or older than the thread's update. |
| Messagable.UnreadThreadsAgreeWithIsUnread | src/Traits/Messagable.php:94-99 | Among the user's threads, one is in `unreadThreads` iff `Thread::isUnread` on it returns true. |
| Messagable.NewThreadsCount | src/Traits/Messagable.php:106-109 | The count equals the number of joined rows whose pivot says unread, counted with multiplicity. It is therefore bounded by the joins, and zero iff no joined thread is unread. |
| Messagable.ThreadsWithNewMessages | src/Traits/Messagable.php:116-119 | The list has one entry per unread thread (`newThreadsCount` many). It holds the id of every unread thread and only ids of unread threads. |
| Messagable.InitialCursor | src/Traits/Messagable.php:61-68 | The cursor computed on a cache miss is 0 or the id of a live broadcast thread. |
| Messagable.CachedCursor | src/Traits/Messagable.php:60-69 | A cached cursor is used as it is. On a miss the cursor is 0 or the id of a live broadcast thread. |
| Messagable.InitialCursorChoice | src/Traits/Messagable.php:60-69 | On a cache miss, the cursor is the id of a newest broadcast thread the user belongs to. Failing that, it is the id of a newest broadcast thread created before the user, and failing that 0. |
| Messagable.InitialCursorFromMembership | src/Traits/Messagable.php:63 | A cursor taken from the user's own threads is the id of a live broadcast thread. |
| Messagable.GetBroadcastLatestId | src/Traits/Messagable.php:60-69 | A cached cursor is returned as is. A miss computes the initial cursor and caches it forever. |
| Messagable.SetBroadcastLatestId | src/Traits/Messagable.php:71-73 | Only this user's cache entry changes, to the given id. |
| Messagable.PendingMembers | src/Traits/Messagable.php:35 | The pending threads are exactly the live broadcast threads with an id above the cursor, each once. |
| Messagable.Sync | src/Traits/Messagable.php:33-53 | `loadBroadcastThreads` keeps the participant table as a prefix of the new one. It sets the user's cursor and leaves every other user's cursor as it was. |
| Messagable.SyncFrame | src/Traits/Messagable.php:33-53 | A sync only appends participant rows, one per pending thread. It only sets the user's own cursor, never below where it was. Other users' cursors are untouched. |
| Messagable.SyncAppends | src/Traits/Messagable.php:38-49 | The rows appended are the sync rows of the pending threads, newest first. |
| Messagable.SyncMaterialisesPending | src/Traits/Messagable.php:33-49 | Every new row belongs to a live broadcast thread above the cursor. It has a null `last_read` and times equal to the thread's creation. Every such thread gets its row, so a non-broadcast thread never gets one. |
| Messagable.SyncCursorIsNewestPending | src/Traits/Messagable.php:48-52 | After a sync that added rows, the cursor is the id of the first pending thread, and no pending thread was created after it. |
| Messagable.SyncWithoutPendingIsNoop | src/Traits/Messagable.php:48-52 | With nothing pending, a sync inserts nothing and only records the cursor it read. A second sync then changes nothing. |
| Messagable.SyncTwiceIsNoopWhenCreationOrdered | src/Traits/Messagable.php:33-53 | When thread ids grow strictly with creation time, a second sync right after the first changes nothing. |
| Messagable.SyncReplaysTiedThread | src/Traits/Messagable.php:35-51 | Counterexample: two broadcasts created in the same second above the cursor. The first sync moves the cursor only to the lower id, so the second sync inserts a second row for the higher one. |
| Messagable.SyncToMaxId | src/Traits/Messagable.php:48-52 | The intended sync inserts the same rows. It moves the cursor to the largest pending id, so no pending thread lies above it, and with nothing pending keeps the cursor it read. It never moves backwards, and every other user's cursor is untouched. |
| Messagable.SyncToMaxIdTwiceIsNoop | src/Traits/Messagable.php:33-53 | With the intended cursor, a second sync right after the first changes nothing, whatever the creation times. |
| Messagable.BuildSyncRows | src/Traits/Messagable.php:37-47 | The `foreach` builds exactly one row per pending thread, in order. |
| Messagable.LoadBroadcastThreads | src/Traits/Messagable.php:33-53 | The participants table and the cursor cache after the call are `Sync` of those before. The journal gains one participant write exactly when rows were inserted. |
| Messenger.Put | src/Messenger.php:124 | An assignment adds at most one entry. The assigned entry is present afterwards, and every other entry was there before. |
| Messenger.Merge | src/Messenger.php:107-115 | `array_merge` keeps every key of the defaults, at its position, in front of any new keys. |
| Messenger.Lookup | src/Messenger.php:107-115 | Reading a key of a PHP array gives none iff the key is absent. |
| Messenger.PutSemantics | src/Messenger.php:107-115 | After an assignment, that key reads the new value and every other key reads what it read before. |
| Messenger.PutKeys | src/Messenger.php:107-115 | An assignment keeps the positions of existing keys, and assigning an existing key adds no entry. |
| Messenger.MergeSemantics | src/Messenger.php:107-115 | After `array_merge`, a key takes the last value the argument gives it, or else its default. The default keys keep their positions in front. |
| Messenger.MergeKnownKeys | src/Messenger.php:107-115 | Merging only default keys keeps the seven defaults' length and order. |
| Messenger.EntryFailure | src/Messenger.php:119-124 | One pass of the validation loop raises InvalidArgument iff the key is required and its value is empty both in the argument and in the builder. It raises nothing iff the value is non-empty or the builder has the key (with a non-empty value when required). Any other failure is the undefined-index error of reading a key the builder's message lacks. |
| Messenger.FirstFailure | src/Messenger.php:119-125 | Validation passes iff no entry fails. Otherwise the error is that of an entry all of whose predecessors pass, i.e. the first failing entry in array order. |
| Messenger.ValidationChecksRequiredInOrder | src/Messenger.php:107-122 | For arguments using default keys and a builder message holding every default key, validation raises InvalidArgument for the first of subject, body and senderId that is empty on both sides, and nothing otherwise. |
| Messenger.DefaultMessage | src/Messenger.php:23-31 | A fresh builder's message has all seven keys; subject, body and senderId are empty, and `store` is not. |
| Messenger.DefaultParams | src/Messenger.php:107-115 | The defaults `send` merges into are keyed subject, body, link, links, senderId, createdAt, store in that order, and all of them but createdAt are empty. |
| Messenger.StoreStep | src/Messenger.php:72-89 | A successful `createMessage` writes one thread and one message. A failure writes no message and no participant. It fires no event and only writes. |
| Messenger.Fanout | src/Messenger.php:63-70 | `pushNotification` fires one event for a broadcast, else one per recipient. Each carries the builder's message and broadcast flag, and has no user exactly for a broadcast. |
| Messenger.FanoutShape | src/Messenger.php:63-70 | A broadcast fires exactly one event, with no user and `toAll` true. Otherwise it fires one event per recipient, in order, with `toAll` false, and none when there are no recipients. |
| Messenger.SendSpec | src/Messenger.php:101-135 | A `send` that succeeds had store or notify on and passed validation. A failed `send` fires no event and writes no message and no participant. |
| Messenger.DeliverStep | src/Messenger.php:128-134 | With store off nothing is written. A successful delivery fires the fan-out iff notify is on. A failed one had store on and fired nothing. |
| Messenger.SendNeedsStoreOrNotify | src/Messenger.php:103-105 | With store and notify both off, `send` raises IncorrectUsage before validation, with no write and no event. |
| Messenger.ValidationFailureHasNoEffect | src/Messenger.php:119-122 | A validation failure is raised as is, with nothing stored and nothing fired. |
| Messenger.ParamsAreDiscarded | src/Messenger.php:119-134 | Any two arguments that pass validation give the same outcome and the same effects: the merged parameters are never used. |
| Messenger.StoredSendWritesOneThreadAndMessage | src/Messenger.php:72-89 | A successful stored send creates exactly one thread (a broadcast iff the builder is) from the builder's subject, and one message from its sender and body. It adds the recipients as participants iff it is not a broadcast and there are recipients. |
| Messenger.PersistBeforeNotify | src/Messenger.php:128-134 | No table write follows an event. A successful notifying send fires exactly the fan-out, and a failed send fires nothing. |
| Messenger.StripWith | src/Messenger.php:213-215 | The name gets shorter, by exactly four characters, iff it starts with `with` in any case. |
| Messenger.StripAnd | src/Messenger.php:217-219 | The name gets shorter, by exactly three characters, iff it starts with `and` in any case. |
| Messenger.LcFirst | src/Messenger.php:214 | `lcfirst` lower-cases the first character only and keeps the length. |
| Messenger.MagicField | src/Messenger.php:204-223 | A magic name, when mapped, sets one of subject, body, senderId, link or links. |
| Messenger.FieldOf | src/Messenger.php:204-211 | Exactly the six names subject, body, link, links, sender and url are mapped, each onto subject, body, senderId, link or links. |
| Messenger.StripWithOf | src/Messenger.php:213-215 | A leading `with`, in any letter case, is dropped and the rest lower-cased at its head. |
| Messenger.WithPrefixIgnoresCase | src/Messenger.php:213-215 | The `with` prefix is recognised whatever its case. |
| Messenger.MagicWithName | src/Messenger.php:213-223 | `withX` sets the key that the lower-cased `x` maps to, unless `x` itself starts with `and`. |
| Messenger.MagicAndName | src/Messenger.php:217-223 | `andX` sets the key that the lower-cased `x` maps to, whatever the case of `and`. |
| Messenger.MagicWithAndName | src/Messenger.php:213-223 | `withAndX` strips both prefixes, `with` first, then maps `x`. |
| Messenger.Messenger.constructor | src/Messenger.php:23-60 | A new builder has the default message, no recipients, no broadcast, store on and notify off. Its backup equals the message. |
| Messenger.Messenger.PushNotification | src/Messenger.php:63-70 | The events fired are exactly the fan-out of the builder, in order. |
| Messenger.Messenger.CreateMessage | src/Messenger.php:72-89 | The tables and the journal change exactly as `StoreStep` of the builder says. |
| Messenger.Messenger.CheckParams | src/Messenger.php:119-125 | The validation loop returns the first failure over the merged parameters, or none. |
| Messenger.Messenger.Send | src/Messenger.php:101-135 | The outcome, the tables, the events and the journal change exactly as `SendSpec` of the builder says. The builder is not modified. |
| Messenger.Messenger.Deliver | src/Messenger.php:128-134 | Store then notify change the state exactly as `DeliverStep` says. |
| Messenger.Messenger.Create | src/Messenger.php:138-141 | The whole message array is replaced, and the same builder is returned. |
| Messenger.Messenger.Notify | src/Messenger.php:148-151 | Only the notify flag is set, and the same builder is returned. `notify()` without an argument is `Notify(true)`. |
| Messenger.Messenger.Store | src/Messenger.php:154-158 | Store is on and the message's `store` entry is 1, so the two move together. |
| Messenger.Messenger.UnStore | src/Messenger.php:161-165 | Store is off and the message's `store` entry is 0. |
| Messenger.Messenger.To | src/Messenger.php:173-181 | The recipients are set and the broadcast flag is cleared. |
| Messenger.Messenger.ToAll | src/Messenger.php:187-192 | The broadcast flag is set and the recipients are cleared. |
| Messenger.Messenger.Call | src/Messenger.php:202-226 | A mapped name sets its key to the first argument, or null without one. Any other name changes nothing. The same builder is returned either way. |
| Storage.Backend.CreateThread | src/Messenger.php:73-76 | `Thread::create` appends one thread with the next id, the given subject and broadcast flag, the default category and both timestamps now, and journals one thread write. |
| Storage.Backend.CreateMessage | src/Messenger.php:78-82 | `Message::create` appends one message with both timestamps now and journals one message write. |
| Storage.Backend.InsertParticipants | src/Traits/Messagable.php:49 | One insert statement appends the given rows, in order, and journals one participant write. |
| Storage.Backend.UpdateParticipant | src/Models/Thread.php:230 | Saving one participant model replaces that row only and journals one participant write. |
| Storage.Backend.Fire | src/Messenger.php:65 | `Event::fire` appends the event and journals it. |
| Storage.Backend.CacheForever | src/Traits/Messagable.php:72 | `Cache::forever` sets this user's cursor and no other entry. |

## Left out

- The framework is replaced by in-memory state: Eloquent, the query builder, the DB, Cache, Log and Event facades. Logging changes no state and is not modelled. Eager loading (`with('messages', 'participantUsers')`, `with('user')`) changes no result and is not modelled.
- Queries without an `orderBy` are read in table order: the thread's `messages()->get()` (src/Models/Thread.php:342), `participants($userId)->firstOrFail()` (src/Models/Thread.php:275) and `participants()->withTrashed()->lists('user_id')` (src/Models/Thread.php:138). SQL leaves that order unspecified. It decides which row `markAsRead` updates when a user has two live rows in a thread, and which message is "the first" that the `while ($i)` scan never examines.
- `latest()` is modelled as a stable sort: rows created in the same second keep table order. SQL leaves that order unspecified.
- Wall-clock time (`Carbon::now()`, `new Carbon()`) is a `now` parameter. Timestamps are whole seconds.
- The PushNotification event is a record of the addressed user's id, the message array and the broadcast flag. Its room token is a sha1 hash and is not part of this model. Broadcasting, the socket gateway and Redis are I/O and not part of this model.
- Recipients are a sequence of user ids. The user collection that `to()` receives, and its `pluck('id')`, are not modelled.
- `count($this->toUsers)` on null is taken as 0, as in the PHP versions the package targets.
- `send`'s argument is an array with string keys only. Integer keys, which `array_merge` renumbers, are not modelled.
- The case-insensitive prefix tests of `__call` (`stripos`, `lcfirst`) are ASCII only, as PHP's are. Multibyte case folding is not modelled.
- The cache entry key `messenger:latestid:user:<id>` is a map from user id to cursor. The key string is not modelled.
- Messagable.ThreadsWithNewMessages: `lists('id')` over the join of threads and participants names an unqualified `id`, which both tables have. Whether the database rejects it as ambiguous or picks one is query behaviour outside this model; the model reads it as the threads' ids.
- Thread.MessagesOf: its own contract only bounds the length; which messages it keeps, and how often, is stated by `Thread.MessagesOfMembers` and `Thread.MessagesOfMultiset`.
- Thread.RowsOfThread: the order of rows is stated by `Thread.RowsOfThreadAppend`, not by the function's own contract.
- Thread.php members other than those in the table are not part of this model: `getLatestMessageAttribute`, `getLastReadAttribute`, `creator`, `participantsString`, `participantUsers`, `getAllLatest`, `getBySubject`, and the scopes `scopeForUser`, `scopeWithNewMessages` and `scopeBetween`. They are query-builder and SQL behaviour, not in-process logic. Participant.php is a record definition; its one rule, that an empty user id leaves the query unfiltered, is folded into `Thread.Selects`.
- Messenger.Messenger.To: the `empty($toUsers)` guard can never hold for a collection object, so the InvalidArgumentException it guards is not modelled.
- Messenger.ValidationChecksRequiredInOrder: stated only for arguments whose keys are among the defaults and a builder message with every default key. Other arguments are covered by `EntryFailure`, `FirstFailure` and `CheckParams`, including the undefined-index error for an empty value whose key the builder's message lacks.
- Thread.ScanUnread: requires a non-empty message list. The empty case, where PHP reads offset -1, is handled by its caller `Thread.UserUnreadMessages`, as `Thread.CursorScanShape` states.
- Messagable.SyncTwiceIsNoopWhenCreationOrdered: stated only for threads whose ids grow strictly with creation time. Without that, the second sync can insert a duplicate row, as `Messagable.SyncReplaysTiedThread` shows.

## Findings

| source | as written | input that shows it | evidently intended | confidence | as-written member | corrected member |
|---|---|---|---|---|---|---|
| src/Models/Thread.php:247-252 | The guard (the pivot's `last_read` is set, or is identical to null) holds whenever it can be evaluated, so the participant lookup is dead code. Without a pivot, reading `last_read` of null raises an error the catch does not handle. | A thread loaded directly (no pivot) with a participant that read it after its last update: the call raises instead of returning false. | Use the pivot when present, else look up the participant, and return false when there is none. | not executed; medium | Thread.IsUnreadNeverLooksUpParticipant | Thread.IsUnread |
| src/Models/Thread.php:352 | `while ($i)` stops before index 0, so the thread's first message is never examined. | One message updated after the user's `last_read`: the unread list is empty and the count is 0. | Scan down to and including index 0, so that every later message counts on a chronological thread. | not executed; high | Thread.ScanSkipsFirstMessage | Thread.LaterMessagesNewestFirst |
| src/Traits/Messagable.php:35-51 | The cursor becomes the id of the first pending thread in newest-created order. With equal creation times that is not the largest id. | Broadcast threads 5 and 6 created in the same second, cursor 4: the cursor moves to 5, and the next sync inserts a second row for thread 6. | Move the cursor to the largest materialised id, so that a repeated sync is a no-op. | not executed; medium | Messagable.SyncReplaysTiedThread | Messagable.SyncToMaxId |
