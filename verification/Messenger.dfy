/** The message builder and dispatcher: a fluent object that collects a message,
    its recipients and two flags, then validates, stores and notifies on `send`. */
module Messenger {
  import opened Php
  import opened Storage
  import opened Thread

  // ---------------------------------------------------------------------------
  // PHP arrays with string keys

  /** One entry of an ordered PHP array with string keys. */
  datatype Entry = Entry(key: string, value: Value)

  function Keys(arr: seq<Entry>): (r: seq<string>)
    ensures |r| == |arr|
  {
    seq(|arr|, i requires 0 <= i < |arr| => arr[i].key)
  }

  /** The value stored under `key`, if the key is present. */
  function Lookup(arr: seq<Entry>, key: string): (r: Option<Value>)
    ensures r.None? <==> key !in Keys(arr)
  {
    if arr == [] then None
    else
      assert Keys(arr) == [arr[0].key] + Keys(arr[1..]);
      if arr[0].key == key then Some(arr[0].value) else Lookup(arr[1..], key)
  }

  /** `$arr[$key] = $value`: overwrite in place when the key exists, else append. */
  function Put(arr: seq<Entry>, e: Entry): (r: seq<Entry>)
    ensures |arr| <= |r| <= |arr| + 1
    ensures e in r
    ensures forall x :: x in r ==> x == e || x in arr
  {
    if arr == [] then [e]
    else if arr[0].key == e.key then [e] + arr[1..]
    else [arr[0]] + Put(arr[1..], e)
  }

  /** After `$arr[$key] = $value` the key reads the new value and every other
      key reads what it read before. */
  lemma {:induction false} PutSemantics(arr: seq<Entry>, e: Entry)
    ensures Lookup(Put(arr, e), e.key) == Some(e.value)
    ensures forall k :: k != e.key ==> Lookup(Put(arr, e), k) == Lookup(arr, k)
  {
    if arr != [] {
      PutSemantics(arr[1..], e);
    }
  }

  /** Existing keys keep their positions; an existing key adds no entry. */
  lemma {:induction false} PutKeys(arr: seq<Entry>, e: Entry)
    ensures forall i :: 0 <= i < |arr| ==> Put(arr, e)[i].key == arr[i].key
    ensures e.key in Keys(arr) ==> |Put(arr, e)| == |arr|
  {
    if arr != [] {
      PutKeys(arr[1..], e);
      assert Keys(arr) == [arr[0].key] + Keys(arr[1..]);
    }
  }

  /** `array_merge($base, $data)` for string keys: later entries overwrite in
      place, new keys are appended in order. */
  function Merge(base: seq<Entry>, data: seq<Entry>): (r: seq<Entry>)
    ensures |r| >= |base|
    ensures forall i :: 0 <= i < |base| ==> r[i].key == base[i].key
    decreases data
  {
    if data == [] then base
    else
      PutKeys(base, data[0]);
      Merge(Put(base, data[0]), data[1..])
  }

  /** The value `data` gives `key` last, if any. */
  function LastValue(data: seq<Entry>, key: string): Option<Value>
  {
    if data == [] then None
    else
      var rest := LastValue(data[1..], key);
      if rest.Some? then rest else if data[0].key == key then Some(data[0].value) else None
  }

  /** After a merge, a key takes the last value `data` gives it, or else keeps
      its value in `base`; the keys of `base` keep their positions in front. */
  lemma {:induction false} MergeSemantics(base: seq<Entry>, data: seq<Entry>)
    ensures forall k :: Lookup(Merge(base, data), k) ==
              (if LastValue(data, k).Some? then LastValue(data, k) else Lookup(base, k))
    ensures forall i :: 0 <= i < |base| ==> Merge(base, data)[i].key == base[i].key
    decreases data
  {
    if data != [] {
      var next := Put(base, data[0]);
      PutSemantics(base, data[0]);
      PutKeys(base, data[0]);
      MergeSemantics(next, data[1..]);
    }
  }

  /** Merging keys that `base` already has keeps its length and key order. */
  lemma {:induction false} MergeKnownKeys(base: seq<Entry>, data: seq<Entry>)
    requires forall i :: 0 <= i < |data| ==> data[i].key in Keys(base)
    ensures |Merge(base, data)| == |base|
    ensures forall i :: 0 <= i < |base| ==> Merge(base, data)[i].key == base[i].key
    decreases data
  {
    if data != [] {
      PutKeys(base, data[0]);
      var next := Put(base, data[0]);
      assert Keys(next) == Keys(base);
      MergeKnownKeys(next, data[1..]);
    }
  }

  // ---------------------------------------------------------------------------
  // Builder state

  /** The builder's fields, as a value. `toUsers` is null or the collection of
      recipients, each given by its user id. */
  datatype BuilderState = BuilderState(
    message: map<string, Value>,
    toUsers: Option<seq<UserId>>,
    toAll: bool,
    isStore: bool,
    isNotify: bool)

  /** The message array a fresh builder starts with. */
  function DefaultMessage(): (m: map<string, Value>)
    ensures HasDefaultKeys(m)
    ensures forall k :: k in Required ==> k in m && IsEmpty(m[k])
    ensures !IsEmpty(m["store"])
  {
    map["subject" := Str(""), "body" := Str(""), "link" := Null, "links" := Null,
        "senderId" := Str(""), "createdAt" := Str(""), "store" := Int(1)]
  }

  /** The defaults `send` merges its argument into, in their order. */
  function DefaultParams(now: Time): (p: seq<Entry>)
    ensures KeyedAsDefaults(p)
    ensures forall i :: 0 <= i < |p| && i != 5 ==> IsEmpty(p[i].value)
  {
    [Entry("subject", Str("")), Entry("body", Str("")), Entry("link", Str("")), Entry("links", Str("")),
     Entry("senderId", Str("")), Entry("createdAt", Time(now)), Entry("store", Str(""))]
  }

  const Required: seq<string> := ["subject", "body", "senderId"]

  /** The recipients' ids; null counts as none. */
  function Recipients(b: BuilderState): seq<UserId>
  {
    if b.toUsers.Some? then b.toUsers.value else []
  }

  // ---------------------------------------------------------------------------
  // Validation

  /** `empty($this->message[$key])`: a missing key is empty and raises nothing. */
  predicate MissingOrEmpty(message: map<string, Value>, key: string)
  {
    key !in message || IsEmpty(message[key])
  }

  /** What one pass of the validation loop raises for one entry of `$params`:
      an empty required value with nothing in the builder is invalid; any other
      empty value reads the builder's message, which must have the key. */
  function EntryFailure(e: Entry, message: map<string, Value>): (r: Option<Error>)
    ensures r == Some(InvalidArgument(e.key)) <==>
              e.key in Required && IsEmpty(e.value) && MissingOrEmpty(message, e.key)
    ensures r.None? <==> !IsEmpty(e.value) || (e.key in message && !(e.key in Required && IsEmpty(message[e.key])))
    ensures r.Some? && r != Some(InvalidArgument(e.key)) ==> r == Some(UndefinedIndex(e.key)) && e.key !in message
  {
    if e.key in Required && IsEmpty(e.value) && MissingOrEmpty(message, e.key) then Some(InvalidArgument(e.key))
    else if IsEmpty(e.value) && e.key !in message then Some(UndefinedIndex(e.key))
    else None
  }

  /** The first failure among `params[from..]`, in order. */
  function FirstFailure(params: seq<Entry>, message: map<string, Value>, from: nat): (r: Option<Error>)
    requires from <= |params|
    ensures r.None? <==> forall i :: from <= i < |params| ==> EntryFailure(params[i], message).None?
    ensures r.Some? ==> exists j :: from <= j < |params| && r == EntryFailure(params[j], message)
                                    && forall i :: from <= i < j ==> EntryFailure(params[i], message).None?
    decreases |params| - from
  {
    if from == |params| then None
    else if EntryFailure(params[from], message).Some? then EntryFailure(params[from], message)
    else FirstFailure(params, message, from + 1)
  }

  /** With the defaults merged with default keys only and a builder message
      holding every default key, validation raises InvalidArgument for the
      first of subject, body and senderId that is empty on both sides, and
      nothing otherwise. */
  lemma ValidationChecksRequiredInOrder(data: seq<Entry>, message: map<string, Value>, now: Time)
    requires forall i :: 0 <= i < |data| ==> data[i].key in Keys(DefaultParams(now))
    requires DefaultMessage().Keys <= message.Keys
    ensures var p := Merge(DefaultParams(now), data);
            FirstFailure(p, message, 0) ==
              if IsEmpty(p[0].value) && IsEmpty(message["subject"]) then Some(InvalidArgument("subject"))
              else if IsEmpty(p[1].value) && IsEmpty(message["body"]) then Some(InvalidArgument("body"))
              else if IsEmpty(p[4].value) && IsEmpty(message["senderId"]) then Some(InvalidArgument("senderId"))
              else None
  {
    var p := Merge(DefaultParams(now), data);
    assert KeyedAsDefaults(p) by {
      MergeKnownKeys(DefaultParams(now), data);
    }
    assert HasDefaultKeys(message) by {
      assert "subject" in DefaultMessage() && "body" in DefaultMessage() && "link" in DefaultMessage();
      assert "links" in DefaultMessage() && "senderId" in DefaultMessage();
      assert "createdAt" in DefaultMessage() && "store" in DefaultMessage();
    }
    RequiredChecksInOrder(p, message);
  }

  /** Seven entries keyed as the defaults are, in the same order. */
  predicate KeyedAsDefaults(p: seq<Entry>)
  {
    && |p| == 7
    && p[0].key == "subject" && p[1].key == "body" && p[2].key == "link" && p[3].key == "links"
    && p[4].key == "senderId" && p[5].key == "createdAt" && p[6].key == "store"
  }

  /** The builder's message has every key of the defaults. */
  predicate HasDefaultKeys(message: map<string, Value>)
  {
    && "subject" in message && "body" in message && "link" in message && "links" in message
    && "senderId" in message && "createdAt" in message && "store" in message
  }

  lemma RequiredChecksInOrder(p: seq<Entry>, message: map<string, Value>)
    requires KeyedAsDefaults(p) && HasDefaultKeys(message)
    ensures FirstFailure(p, message, 0) ==
              if IsEmpty(p[0].value) && IsEmpty(message["subject"]) then Some(InvalidArgument("subject"))
              else if IsEmpty(p[1].value) && IsEmpty(message["body"]) then Some(InvalidArgument("body"))
              else if IsEmpty(p[4].value) && IsEmpty(message["senderId"]) then Some(InvalidArgument("senderId"))
              else None
  {
    assert "link" !in Required && "links" !in Required && "createdAt" !in Required && "store" !in Required;
    assert EntryFailure(p[6], message) == None;
    assert EntryFailure(p[5], message) == None;
    assert EntryFailure(p[3], message) == None;
    assert EntryFailure(p[2], message) == None;
    assert FirstFailure(p, message, 5) == None;
    assert FirstFailure(p, message, 2) == FirstFailure(p, message, 4);
  }

  // ---------------------------------------------------------------------------
  // What `send` does

  /** What a call appends to the tables and the event stream, and the kinds of
      those effects in the order they happen. */
  datatype Effects = Effects(
    threads: seq<ThreadRow>,
    messages: seq<MessageRow>,
    participants: seq<ParticipantRow>,
    events: seq<Notification>,
    ops: seq<Op>)

  const NoEffects := Effects([], [], [], [], [])

  datatype Step = Step(outcome: Outcome, effects: Effects)

  /** `createMessage()`: a thread from the builder's subject, then a message from
      its sender and body, then the recipients as participants unless this is a
      broadcast. A key missing from the builder's message ends the call where it
      is read. */
  function StoreStep(b: BuilderState, nextId: int, now: Time): (r: Step)
    ensures r.outcome.Pass? ==> |r.effects.threads| == 1 && |r.effects.messages| == 1
    ensures r.outcome.Fail? ==> r.effects.messages == [] && r.effects.participants == []
    ensures r.effects.events == []
    ensures forall op :: op in r.effects.ops ==> op.Write?
  {
    if "subject" !in b.message then Step(Fail(UndefinedIndex("subject")), NoEffects)
    else
      var thread := ThreadRow(nextId, b.message["subject"], "Msg", b.toAll, now, now, None);
      var created := Effects([thread], [], [], [], [Write(ThreadTable)]);
      if "senderId" !in b.message then Step(Fail(UndefinedIndex("senderId")), created)
      else if "body" !in b.message then Step(Fail(UndefinedIndex("body")), created)
      else
        var m := MessageRow(nextId, b.message["senderId"], b.message["body"], now, now);
        var ids := Recipients(b);
        var rows := if !b.toAll && |ids| > 0 then NewRows(ids, nextId) else [];
        var ops := [Write(ThreadTable), Write(MessageTable)] + (if rows == [] then [] else [Write(ParticipantTable)]);
        Step(Pass, Effects([thread], [m], rows, [], ops))
  }

  /** `pushNotification()`: one event for a broadcast, else one per recipient. */
  function Fanout(b: BuilderState): (r: seq<Notification>)
    ensures |r| == if b.toAll then 1 else |Recipients(b)|
    ensures forall k :: 0 <= k < |r| ==> r[k].message == b.message && r[k].toAll == b.toAll
    ensures forall k :: 0 <= k < |r| ==> (r[k].user.None? <==> b.toAll)
  {
    if b.toAll then [Notification(None, b.message, true)]
    else
      var ids := Recipients(b);
      seq(|ids|, i requires 0 <= i < |ids| => Notification(Some(ids[i]), b.message, false))
  }

  lemma FanoutShape(b: BuilderState)
    ensures b.toAll ==> Fanout(b) == [Notification(None, b.message, true)]
    ensures !b.toAll ==>
              && |Fanout(b)| == |Recipients(b)|
              && forall i :: 0 <= i < |Recipients(b)| ==>
                   Fanout(b)[i] == Notification(Some(Recipients(b)[i]), b.message, false)
  {
  }

  function PublishOps(events: seq<Notification>): (r: seq<Op>)
    ensures |r| == |events|
  {
    seq(|events|, i requires 0 <= i < |events| => Publish(events[i]))
  }

  /** `send($data)`: the flag check, validation of the merged parameters, then
      store, then notify. */
  function SendSpec(b: BuilderState, data: seq<Entry>, nextId: int, now: Time): (r: Step)
    ensures r.outcome.Pass? ==> (b.isStore || b.isNotify) && FirstFailure(Merge(DefaultParams(now), data), b.message, 0).None?
    ensures r.outcome.Fail? ==> r.effects.events == [] && r.effects.messages == [] && r.effects.participants == []
  {
    if !b.isStore && !b.isNotify then Step(Fail(IncorrectUsage), NoEffects)
    else
      match FirstFailure(Merge(DefaultParams(now), data), b.message, 0)
      case Some(e) => Step(Fail(e), NoEffects)
      case None => DeliverStep(b, nextId, now)
  }

  /** What `send` does once validation passed: store if asked, then notify if asked. */
  function DeliverStep(b: BuilderState, nextId: int, now: Time): (r: Step)
    ensures !b.isStore ==> r.outcome.Pass? && r.effects.threads == [] && r.effects.messages == []
    ensures r.outcome.Pass? ==> r.effects.events == if b.isNotify then Fanout(b) else []
    ensures r.outcome.Fail? ==> b.isStore && r.effects.events == []
  {
    var stored := if b.isStore then StoreStep(b, nextId, now) else Step(Pass, NoEffects);
    if stored.outcome.Fail? then stored
    else
      var events := if b.isNotify then Fanout(b) else [];
      Step(Pass, stored.effects.(events := events, ops := stored.effects.ops + PublishOps(events)))
  }

  /** With both store and notify off, `send` fails before looking at its
      argument and has no effect. */
  lemma SendNeedsStoreOrNotify(b: BuilderState, data: seq<Entry>, nextId: int, now: Time)
    requires !b.isStore && !b.isNotify
    ensures SendSpec(b, data, nextId, now) == Step(Fail(IncorrectUsage), NoEffects)
  {
  }

  /** A validation failure is raised as is, with no write and no event. */
  lemma ValidationFailureHasNoEffect(b: BuilderState, data: seq<Entry>, nextId: int, now: Time)
    requires b.isStore || b.isNotify
    requires FirstFailure(Merge(DefaultParams(now), data), b.message, 0).Some?
    ensures SendSpec(b, data, nextId, now)
            == Step(Fail(FirstFailure(Merge(DefaultParams(now), data), b.message, 0).value), NoEffects)
  {
  }

  /** The merged parameters are never used: any two arguments that pass
      validation have the same effects. */
  lemma ParamsAreDiscarded(b: BuilderState, data1: seq<Entry>, data2: seq<Entry>, nextId: int, now: Time)
    requires FirstFailure(Merge(DefaultParams(now), data1), b.message, 0).None?
    requires FirstFailure(Merge(DefaultParams(now), data2), b.message, 0).None?
    ensures SendSpec(b, data1, nextId, now) == SendSpec(b, data2, nextId, now)
  {
  }

  /** A successful stored send creates exactly one thread (a broadcast iff the
      builder is) and one message, both from the builder's own message array,
      and adds the recipients as participants only when it is not a broadcast. */
  lemma StoredSendWritesOneThreadAndMessage(b: BuilderState, data: seq<Entry>, nextId: int, now: Time)
    requires b.isStore
    requires SendSpec(b, data, nextId, now).outcome.Pass?
    ensures var e := SendSpec(b, data, nextId, now).effects;
            && "subject" in b.message && "senderId" in b.message && "body" in b.message
            && e.threads == [ThreadRow(nextId, b.message["subject"], "Msg", b.toAll, now, now, None)]
            && e.messages == [MessageRow(nextId, b.message["senderId"], b.message["body"], now, now)]
            && (e.participants != [] <==> !b.toAll && Recipients(b) != [])
            && (e.participants != [] ==> e.participants == NewRows(Recipients(b), nextId))
  {
  }

  /** Every table write of a send comes before every event it fires, and a
      successful notifying send fires exactly the fan-out. */
  lemma PersistBeforeNotify(b: BuilderState, data: seq<Entry>, nextId: int, now: Time)
    ensures var s := SendSpec(b, data, nextId, now);
            && (forall i, j :: 0 <= i < j < |s.effects.ops| && s.effects.ops[i].Publish? ==> s.effects.ops[j].Publish?)
            && (s.outcome.Pass? && b.isNotify ==> s.effects.events == Fanout(b))
            && (s.outcome.Fail? ==> s.effects.events == [])
  {
    var s := SendSpec(b, data, nextId, now);
    if s.outcome.Pass? && s.effects.ops != [] {
      var stored := if b.isStore then StoreStep(b, nextId, now) else Step(Pass, NoEffects);
      var events := if b.isNotify then Fanout(b) else [];
      assert s.effects.ops == stored.effects.ops + PublishOps(events);
    }
  }

  // ---------------------------------------------------------------------------
  // The magic setter

  /** ASCII lower-casing of one character. */
  function LowerChar(c: char): char
  {
    if 'A' <= c <= 'Z' then (c as int + 32) as char else c
  }

  /** `0 === stripos($s, $prefix)` for a lower-case prefix: `s` starts with
      `prefix`, ignoring ASCII case. */
  predicate HasPrefixCI(s: string, prefix: string)
    decreases prefix
  {
    prefix == [] || (s != [] && LowerChar(s[0]) == prefix[0] && HasPrefixCI(s[1..], prefix[1..]))
  }

  /** `lcfirst`. */
  function LcFirst(s: string): (r: string)
    ensures |r| == |s|
    ensures s != [] ==> r[0] == LowerChar(s[0]) && r[1..] == s[1..]
  {
    if s == [] then s else [LowerChar(s[0])] + s[1..]
  }

  /** `lcfirst(substr($s, $n))`, where `substr` past the end gives the empty string. */
  function LcFirstFrom(s: string, n: nat): string
  {
    if n <= |s| then LcFirst(s[n..]) else ""
  }

  /** A name that starts with a prefix, ignoring case, is at least as long. */
  lemma {:induction false} HasPrefixCILength(s: string, prefix: string)
    requires HasPrefixCI(s, prefix)
    ensures |s| >= |prefix|
    decreases prefix
  {
    if prefix != [] {
      HasPrefixCILength(s[1..], prefix[1..]);
    }
  }

  /** The method name once a leading `with` is stripped: the name gets shorter
      exactly when it starts with `with`, in any case. */
  function StripWith(name: string): (r: string)
    ensures HasPrefixCI(name, "with") <==> |r| < |name|
    ensures HasPrefixCI(name, "with") ==> |r| == |name| - 4
  {
    if HasPrefixCI(name, "with") then HasPrefixCILength(name, "with"); LcFirstFrom(name, 4) else name
  }

  /** The name once a leading `and` is stripped: it gets shorter exactly when it
      starts with `and`, in any case. */
  function StripAnd(name: string): (r: string)
    ensures HasPrefixCI(name, "and") <==> |r| < |name|
    ensures HasPrefixCI(name, "and") ==> |r| == |name| - 3
  {
    if HasPrefixCI(name, "and") then HasPrefixCILength(name, "and"); LcFirstFrom(name, 3) else name
  }

  /** The method name once a leading `with` and then a leading `and` are stripped. */
  function StripPrefixes(name: string): string
  {
    StripAnd(StripWith(name))
  }

  /** The message key a magic call sets, if its stripped name is mapped. */
  function MagicField(name: string): (r: Option<string>)
    ensures r.Some? ==> r.value in DefaultMessage() && r.value in Required + ["link", "links"]
  {
    FieldOf(StripPrefixes(name))
  }

  /** The message key each stripped name stands for: one of the six mapped
      names, and never `createdAt` or `store`. */
  function FieldOf(stripped: string): (r: Option<string>)
    ensures r.Some? <==> stripped in ["subject", "body", "link", "links", "sender", "url"]
    ensures r.Some? ==> r.value in Required + ["link", "links"]
  {
    match stripped
    case "subject" => Some("subject")
    case "body" => Some("body")
    case "link" => Some("link")
    case "links" => Some("links")
    case "sender" => Some("senderId")
    case "url" => Some("link")
    case _ => None
  }

  /** `w` is `word` written in any mixture of ASCII cases. */
  predicate CaseVariant(w: string, word: string)
  {
    |w| == |word| && forall i :: 0 <= i < |w| ==> LowerChar(w[i]) == word[i]
  }

  /** A word that lower-cases to `prefix` starts every name it begins. */
  lemma {:induction false} HasPrefixCIOfWord(w: string, rest: string, prefix: string)
    requires CaseVariant(w, prefix)
    ensures HasPrefixCI(w + rest, prefix)
    decreases prefix
  {
    if prefix != [] {
      assert (w + rest)[1..] == w[1..] + rest;
      HasPrefixCIOfWord(w[1..], rest, prefix[1..]);
    }
  }

  /** A leading `with`, in any case, is dropped and the rest lower-cased at its head. */
  lemma StripWithOf(w: string, rest: string)
    requires CaseVariant(w, "with")
    ensures StripWith(w + rest) == LcFirst(rest)
  {
    HasPrefixCIOfWord(w, rest, "with");
    assert (w + rest)[4..] == rest;
  }

  /** The `with` prefix is matched whatever its case. */
  lemma WithPrefixIgnoresCase(w: string, rest: string)
    requires CaseVariant(w, "with")
    ensures MagicField(w + rest) == MagicField("with" + rest)
  {
    StripWithOf(w, rest);
    StripWithOf("with", rest);
  }

  /** `withX(...)` sets the key mapped to `x` (the name's head lower-cased),
      unless what follows `with` starts with `and`. */
  lemma MagicWithName(w: string, rest: string)
    requires CaseVariant(w, "with") && !HasPrefixCI(LcFirst(rest), "and")
    ensures MagicField(w + rest) == FieldOf(LcFirst(rest))
  {
    StripWithOf(w, rest);
  }

  /** `andX(...)` sets the key mapped to `x`, whatever the case of `and`. */
  lemma MagicAndName(a: string, rest: string)
    requires CaseVariant(a, "and")
    ensures MagicField(a + rest) == FieldOf(LcFirst(rest))
  {
    assert (a + rest)[0] == a[0];
    assert !HasPrefixCI(a + rest, "with");
    HasPrefixCIOfWord(a, rest, "and");
    assert (a + rest)[3..] == rest;
  }

  /** `withAndX(...)`: both prefixes are stripped, in this order. */
  lemma MagicWithAndName(w: string, a: string, rest: string)
    requires CaseVariant(w, "with") && CaseVariant(a, "and")
    ensures MagicField(w + a + rest) == FieldOf(LcFirst(rest))
  {
    assert w + a + rest == w + (a + rest);
    StripWithOf(w, a + rest);
    var lowered := LcFirst(a);
    assert LcFirst(a + rest) == lowered + rest;
    assert CaseVariant(lowered, "and");
    HasPrefixCIOfWord(lowered, rest, "and");
    assert (lowered + rest)[3..] == rest;
  }

  // ---------------------------------------------------------------------------
  // The builder object

  class Messenger {
    var message: map<string, Value>
    var toUsers: Option<seq<UserId>>
    var toAll: bool
    /** A copy of the message taken at construction; nothing reads it again. */
    var messageBackup: map<string, Value>
    var isStore: bool
    var isNotify: bool

    function State(): BuilderState
      reads this
    {
      BuilderState(message, toUsers, toAll, isStore, isNotify)
    }

    constructor ()
      ensures State() == BuilderState(DefaultMessage(), None, false, true, false)
      ensures messageBackup == DefaultMessage()
    {
      message := DefaultMessage();
      toUsers := None;
      toAll := false;
      isStore := true;
      isNotify := false;
      messageBackup := message;
    }

    /** `pushNotification()`. */
    method PushNotification(db: Backend)
      modifies db`events, db`journal
      ensures db.events == old(db.events) + Fanout(State())
      ensures db.journal == old(db.journal) + PublishOps(Fanout(State()))
    {
      if toAll {
        db.Fire(Notification(None, message, true));
      } else if toUsers.Some? && |toUsers.value| > 0 {
        var users := toUsers.value;
        for i := 0 to |users|
          invariant db.events == old(db.events) + Fanout(State())[..i]
          invariant db.journal == old(db.journal) + PublishOps(Fanout(State())[..i])
        {
          db.Fire(Notification(Some(users[i]), message, false));
          assert Fanout(State())[..i + 1] == Fanout(State())[..i] + [Notification(Some(users[i]), message, false)];
          assert PublishOps(Fanout(State())[..i + 1]) == PublishOps(Fanout(State())[..i]) + [Publish(Notification(Some(users[i]), message, false))];
        }
        assert Fanout(State())[..|users|] == Fanout(State());
      }
    }

    /** `createMessage()`. */
    method CreateMessage(db: Backend, now: Time) returns (outcome: Outcome)
      modifies db`threads, db`nextThreadId, db`messages, db`participants, db`journal
      ensures var s := StoreStep(State(), old(db.nextThreadId), now);
              && outcome == s.outcome
              && db.threads == old(db.threads) + s.effects.threads
              && db.nextThreadId == old(db.nextThreadId) + |s.effects.threads|
              && db.messages == old(db.messages) + s.effects.messages
              && db.participants == old(db.participants) + s.effects.participants
              && db.journal == old(db.journal) + s.effects.ops
    {
      if "subject" !in message {
        return Fail(UndefinedIndex("subject"));
      }
      var thread := db.CreateThread(message["subject"], toAll, now);
      if "senderId" !in message {
        return Fail(UndefinedIndex("senderId"));
      }
      if "body" !in message {
        return Fail(UndefinedIndex("body"));
      }
      var _ := db.CreateMessage(thread.id, message["senderId"], message["body"], now);
      if !toAll && toUsers.Some? && |toUsers.value| > 0 {
        AddParticipants(db, thread, UserIds(toUsers.value), now);
      }
      return Pass;
    }

    /** The validation loop of `send()`: each merged entry in order; an empty
        value falls back to the builder's message. The filled-in `$params`
        it builds is never used afterwards. */
    method CheckParams(merged: seq<Entry>) returns (failure: Option<Error>)
      ensures failure == FirstFailure(merged, message, 0)
    {
      var params := merged;
      var i := 0;
      while i < |merged|
        invariant 0 <= i <= |merged|
        invariant FirstFailure(merged, message, 0) == FirstFailure(merged, message, i)
        invariant |params| == |merged|
      {
        var key, value := merged[i].key, merged[i].value;
        if key in Required && IsEmpty(value) && MissingOrEmpty(message, key) {
          return Some(InvalidArgument(key));
        }
        if IsEmpty(value) {
          if key !in message {
            return Some(UndefinedIndex(key));
          }
          params := params[i := Entry(key, message[key])];
        } else {
          params := params[i := Entry(key, value)];
        }
        i := i + 1;
      }
      return None;
    }

    /** `send($data)`; the builder itself is left as it was. */
    method Send(data: seq<Entry>, db: Backend, now: Time) returns (outcome: Outcome)
      modifies db`threads, db`nextThreadId, db`messages, db`participants, db`events, db`journal
      ensures var s := SendSpec(State(), data, old(db.nextThreadId), now);
              && outcome == s.outcome
              && db.threads == old(db.threads) + s.effects.threads
              && db.nextThreadId == old(db.nextThreadId) + |s.effects.threads|
              && db.messages == old(db.messages) + s.effects.messages
              && db.participants == old(db.participants) + s.effects.participants
              && db.events == old(db.events) + s.effects.events
              && db.journal == old(db.journal) + s.effects.ops
    {
      if !isStore && !isNotify {
        return Fail(IncorrectUsage);
      }
      var merged := Merge(DefaultParams(now), data);
      var failure := CheckParams(merged);
      if failure.Some? {
        return Fail(failure.value);
      }
      outcome := Deliver(db, now);
    }

    /** The part of `send` after validation. */
    method Deliver(db: Backend, now: Time) returns (outcome: Outcome)
      modifies db`threads, db`nextThreadId, db`messages, db`participants, db`events, db`journal
      ensures var s := DeliverStep(State(), old(db.nextThreadId), now);
              && outcome == s.outcome
              && db.threads == old(db.threads) + s.effects.threads
              && db.nextThreadId == old(db.nextThreadId) + |s.effects.threads|
              && db.messages == old(db.messages) + s.effects.messages
              && db.participants == old(db.participants) + s.effects.participants
              && db.events == old(db.events) + s.effects.events
              && db.journal == old(db.journal) + s.effects.ops
    {
      if isStore {
        outcome := CreateMessage(db, now);
        if outcome.Fail? {
          return;
        }
      }
      if isNotify {
        PushNotification(db);
      }
      return Pass;
    }

    /** `create($message)`: replaces the whole message array. */
    method Create(m: map<string, Value>) returns (self: Messenger)
      modifies this`message
      ensures self == this && message == m
    {
      message := m;
      return this;
    }

    /** `notify($isNotify)`; a call without argument, `notify()`, is `Notify(true)`. */
    method Notify(flag: bool) returns (self: Messenger)
      modifies this`isNotify
      ensures self == this && isNotify == flag
    {
      isNotify := flag;
      return this;
    }

    /** `store()`: the flag and the message's `store` entry move together. */
    method Store() returns (self: Messenger)
      modifies this`isStore, this`message
      ensures self == this && isStore && message == old(message)["store" := Int(1)]
    {
      isStore := true;
      message := message["store" := Int(1)];
      return this;
    }

    /** `unStore()`. */
    method UnStore() returns (self: Messenger)
      modifies this`isStore, this`message
      ensures self == this && !isStore && message == old(message)["store" := Int(0)]
    {
      isStore := false;
      message := message["store" := Int(0)];
      return this;
    }

    /** `to($users)`: addressed recipients replace a broadcast. */
    method To(users: seq<UserId>) returns (self: Messenger)
      modifies this`toUsers, this`toAll
      ensures self == this && toUsers == Some(users) && !toAll
    {
      toUsers := Some(users);
      toAll := false;
      return this;
    }

    /** `toAll()`: a broadcast drops the recipients. */
    method ToAll() returns (self: Messenger)
      modifies this`toUsers, this`toAll
      ensures self == this && toUsers == None && toAll
    {
      toUsers := None;
      toAll := true;
      return this;
    }

    /** `__call($name, $args)`: sets the mapped field to the first argument (null
        when there is none); any other name changes nothing. */
    method Call(name: string, args: seq<Value>) returns (self: Messenger)
      modifies this`message
      ensures self == this
      ensures MagicField(name).Some? ==>
                message == old(message)[MagicField(name).value := if args == [] then Null else args[0]]
      ensures MagicField(name).None? ==> message == old(message)
    {
      var field := MagicField(name);
      if field.Some? {
        message := message[field.value := if args == [] then Null else args[0]];
      }
      return this;
    }
  }
}
