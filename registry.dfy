/** The auditor's table of musicians, as values: the insertion-ordered JavaScript
    Map from uuid to record, the update made for each announcement, the liveness
    test, and the snapshot that keeps the active musicians and forgets the others. */
module Registry {
  import opened Wrappers
  import Json

  /** ACTIVE_TIME_IN_SECONDS of the auditor's settings. */
  const ACTIVE_TIME_IN_SECONDS: nat := 5

  /** The key a musician is filed under: the decoded `uuid` field, whatever JSON
      value it holds. When the field is absent the key is `undefined`, which a
      JavaScript Map accepts like any other key. */
  type Uuid = Option<Json.Value>

  /** The two fields the message handler reads from a decoded datagram. Neither
      is checked: whatever the sender put there (or nothing) is used as is. */
  datatype Message = Message(uuid: Uuid, instrument: Option<Json.Value>)

  /** A stored musician. `lastSound` is written only when a known musician is
      heard again, so a musician heard once has none. Times are in seconds. */
  datatype Record = Record(
    uuid: Uuid,
    instrument: Option<Json.Value>,
    activeSince: int,
    lastUpdate: int,
    lastSound: Option<int>)

  /** One element of the list written to a client. */
  datatype Entry = Entry(uuid: Uuid, instrument: Option<Json.Value>, activeSince: int)

  /** The Map: its keys in insertion order, and the record under each key. */
  datatype Table = Table(order: seq<Uuid>, records: map<Uuid, Record>)

  const Empty: Table := Table([], map[])

  predicate Distinct(s: seq<Uuid>)
  {
    forall i, j :: 0 <= i < j < |s| ==> s[i] != s[j]
  }

  /** `a` comes before `b` in `s`. */
  ghost predicate Before(s: seq<Uuid>, a: Uuid, b: Uuid)
  {
    exists i, j :: 0 <= i < j < |s| && s[i] == a && s[j] == b
  }

  /** What a JavaScript Map guarantees: each key once in the insertion order, the
      order and the stored keys the same, and (as the auditor fills it) each
      record stored under its own uuid. */
  ghost predicate WellFormed(t: Table)
  {
    && Distinct(t.order)
    && (forall k :: k in t.order <==> k in t.records)
    && (forall k :: k in t.records ==> t.records[k].uuid == k)
  }

  // ---------------------------------------------------------------------------
  // The message handler

  /** A known uuid gets `lastSound` set to now and nothing else; an unknown one
      is appended with `activeSince` and `lastUpdate` both now, the instrument
      from the message, and no `lastSound`. */
  function Upsert(t: Table, m: Message, now: int): (t': Table)
    ensures t'.records.Keys == t.records.Keys + {m.uuid}
    ensures forall k :: k in t.records && k != m.uuid ==> t'.records[k] == t.records[k]
    ensures m.uuid in t.records ==>
      && t'.order == t.order
      && t'.records[m.uuid].lastSound == Some(now)
      && t'.records[m.uuid].uuid == t.records[m.uuid].uuid
      && t'.records[m.uuid].instrument == t.records[m.uuid].instrument
      && t'.records[m.uuid].activeSince == t.records[m.uuid].activeSince
      && t'.records[m.uuid].lastUpdate == t.records[m.uuid].lastUpdate
    ensures m.uuid !in t.records ==>
      && t'.order == t.order + [m.uuid]
      && t'.records[m.uuid] == Record(m.uuid, m.instrument, now, now, None)
    ensures WellFormed(t) ==> WellFormed(t')
  {
    if m.uuid in t.records then
      Table(t.order, t.records[m.uuid := t.records[m.uuid].(lastSound := Some(now))])
    else
      Table(t.order + [m.uuid], t.records[m.uuid := Record(m.uuid, m.instrument, now, now, None)])
  }

  // ---------------------------------------------------------------------------
  // The connection handler

  /** The test `moment().subtract(ttl, "s").diff(lastSound) <= 0`. A missing
      `lastSound` reaches moment as `undefined`, which it reads as the current
      instant; the test then compares now - ttl with now and passes. */
  function IsActive(r: Record, now: int, ttl: nat): (active: bool)
    ensures r.lastSound.None? ==> active
    ensures r.lastSound.Some? ==> (active <==> now - r.lastSound.value <= ttl)
  {
    var heard := match r.lastSound case Some(t) => t case None => now;
    (now - ttl) - heard <= 0
  }

  /** The keys of `keys` the walk keeps, in their order: those stored and active. */
  function KeptKeys(keys: seq<Uuid>, records: map<Uuid, Record>, now: int, ttl: nat): seq<Uuid>
    decreases |keys|
  {
    if keys == [] then []
    else
      var last := keys[|keys| - 1];
      KeptKeys(keys[..|keys| - 1], records, now, ttl)
        + (if last in records && IsActive(records[last], now, ttl) then [last] else [])
  }

  /** The records left once the walk has deleted every stored, inactive key of
      `keys`, one at a time. */
  function Evicted(records: map<Uuid, Record>, keys: seq<Uuid>, now: int, ttl: nat): map<Uuid, Record>
    decreases |keys|
  {
    if keys == [] then records
    else
      var last := keys[|keys| - 1];
      var rest := Evicted(records, keys[..|keys| - 1], now, ttl);
      if last in records && !IsActive(records[last], now, ttl) then rest - {last} else rest
  }

  /** The element pushed for a kept musician: the Map key as uuid, with the
      record's instrument and activeSince. */
  function EntryOf(uuid: Uuid, r: Record): Entry
  {
    Entry(uuid, r.instrument, r.activeSince)
  }

  function Entries(keys: seq<Uuid>, records: map<Uuid, Record>): seq<Entry>
    requires forall k :: k in keys ==> k in records
  {
    seq(|keys|, i requires 0 <= i < |keys| => EntryOf(keys[i], records[keys[i]]))
  }

  function Uuids(es: seq<Entry>): seq<Uuid>
  {
    seq(|es|, i requires 0 <= i < |es| => es[i].uuid)
  }

  /** The list a connection receives: every listed musician is stored and
      active, and its entry is copied from its record. */
  function Orchestra(t: Table, now: int, ttl: nat): (es: seq<Entry>)
    ensures forall i :: 0 <= i < |es| ==>
      && es[i].uuid in t.records
      && IsActive(t.records[es[i].uuid], now, ttl)
      && es[i] == EntryOf(es[i].uuid, t.records[es[i].uuid])
  {
    KeptKeysMembership(t.order, t.records, now, ttl);
    Entries(KeptKeys(t.order, t.records, now, ttl), t.records)
  }

  /** The Map after the connection handler's pass: the keys walked and kept are
      the stored, active ones; no record is added or altered, and every walked
      inactive one is gone. */
  function Evict(t: Table, now: int, ttl: nat): (t': Table)
    ensures forall k :: k in t'.order <==> k in t.order && k in t.records && IsActive(t.records[k], now, ttl)
    ensures forall k :: k in t'.records <==> k in t.records && (k in t.order ==> IsActive(t.records[k], now, ttl))
    ensures forall k :: k in t'.records ==> t'.records[k] == t.records[k]
  {
    KeptKeysMembership(t.order, t.records, now, ttl);
    EvictedMembership(t.records, t.order, now, ttl);
    Table(KeptKeys(t.order, t.records, now, ttl), Evicted(t.records, t.order, now, ttl))
  }

  // ---------------------------------------------------------------------------
  // Basic facts about the walk

  /** A key is kept iff it is walked, stored and active. */
  lemma {:induction false} KeptKeysMembership(keys: seq<Uuid>, records: map<Uuid, Record>, now: int, ttl: nat)
    ensures forall k :: k in KeptKeys(keys, records, now, ttl) <==> k in keys && k in records && IsActive(records[k], now, ttl)
    decreases |keys|
  {
    if keys != [] {
      var front, last := keys[..|keys| - 1], keys[|keys| - 1];
      KeptKeysMembership(front, records, now, ttl);
      assert keys == front + [last];
    }
  }

  /** Keys that occur once occur once among the kept ones. */
  lemma {:induction false} KeptKeysDistinct(keys: seq<Uuid>, records: map<Uuid, Record>, now: int, ttl: nat)
    requires Distinct(keys)
    ensures Distinct(KeptKeys(keys, records, now, ttl))
    decreases |keys|
  {
    if keys != [] {
      var front, last := keys[..|keys| - 1], keys[|keys| - 1];
      KeptKeysDistinct(front, records, now, ttl);
      KeptKeysMembership(front, records, now, ttl);
      assert keys == front + [last];
      assert last !in front;
    }
  }

  /** A record survives the walk iff it is not a walked, inactive key; a
      surviving record is not altered. */
  lemma {:induction false} EvictedMembership(records: map<Uuid, Record>, keys: seq<Uuid>, now: int, ttl: nat)
    ensures forall k :: k in Evicted(records, keys, now, ttl) <==>
      k in records && (k in keys ==> IsActive(records[k], now, ttl))
    ensures forall k :: k in Evicted(records, keys, now, ttl) ==> Evicted(records, keys, now, ttl)[k] == records[k]
    decreases |keys|
  {
    if keys != [] {
      var front, last := keys[..|keys| - 1], keys[|keys| - 1];
      EvictedMembership(records, front, now, ttl);
      assert keys == front + [last];
    }
  }

  /** Of a well-formed Map, the pass keeps exactly the active records, unaltered. */
  lemma EvictContents(t: Table, now: int, ttl: nat)
    requires WellFormed(t)
    ensures forall k :: k in Evict(t, now, ttl).records <==> k in t.records && IsActive(t.records[k], now, ttl)
    ensures forall k :: k in Evict(t, now, ttl).records ==> Evict(t, now, ttl).records[k] == t.records[k]
  {
    EvictedMembership(t.records, t.order, now, ttl);
  }

  /** The pass leaves a well-formed Map. */
  lemma EvictWellFormed(t: Table, now: int, ttl: nat)
    requires WellFormed(t)
    ensures WellFormed(Evict(t, now, ttl))
  {
    KeptKeysDistinct(t.order, t.records, now, ttl);
    KeptKeysMembership(t.order, t.records, now, ttl);
    EvictContents(t, now, ttl);
  }

  // ---------------------------------------------------------------------------
  // The connection handler's walk, one key at a time

  /** The Map once the walk has visited the first `i` keys: the kept ones, then
      the ones still to visit; the deleted records are gone. */
  function Walked(t: Table, i: nat, now: int, ttl: nat): Table
    requires i <= |t.order|
  {
    Table(KeptKeys(t.order[..i], t.records, now, ttl) + t.order[i..], Evicted(t.records, t.order[..i], now, ttl))
  }

  lemma WalkStart(t: Table, now: int, ttl: nat)
    ensures Walked(t, 0, now, ttl) == t
  {
    assert t.order[..0] == [] && t.order[0..] == t.order;
  }

  lemma WalkEnd(t: Table, now: int, ttl: nat)
    ensures Walked(t, |t.order|, now, ttl) == Evict(t, now, ttl)
    ensures Orchestra(Table(t.order[..|t.order|], t.records), now, ttl) == Orchestra(t, now, ttl)
  {
    assert t.order[..|t.order|] == t.order;
    assert t.order[|t.order|..] == [];
  }

  /** Visiting one more key extends both recursions by that key. */
  lemma WalkUnfold(keys: seq<Uuid>, i: nat, records: map<Uuid, Record>, now: int, ttl: nat)
    requires i < |keys|
    ensures var k := keys[i];
      var active := k in records && IsActive(records[k], now, ttl);
      && KeptKeys(keys[..i + 1], records, now, ttl)
         == KeptKeys(keys[..i], records, now, ttl) + (if active then [k] else [])
      && Evicted(records, keys[..i + 1], now, ttl)
         == if k in records && !active then Evicted(records, keys[..i], now, ttl) - {k}
            else Evicted(records, keys[..i], now, ttl)
  {
    assert keys[..i + 1][..i] == keys[..i];
  }

  /** The key visited at step `i` is still stored, unaltered, right after the
      kept prefix. */
  lemma WalkVisits(t: Table, i: nat, now: int, ttl: nat)
    requires WellFormed(t) && i < |t.order|
    ensures var w := Walked(t, i, now, ttl);
      var j := |KeptKeys(t.order[..i], t.records, now, ttl)|;
      && t.order[i] in w.records && w.records[t.order[i]] == t.records[t.order[i]]
      && j < |w.order| && w.order[j] == t.order[i]
  {
    var kept := KeptKeys(t.order[..i], t.records, now, ttl);
    EvictedMembership(t.records, t.order[..i], now, ttl);
    assert t.order[i] !in t.order[..i];
    assert t.order[i..][0] == t.order[i];
    assert (kept + t.order[i..])[|kept|] == t.order[i];
  }

  /** Visiting an active key changes nothing. */
  lemma WalkKeep(t: Table, i: nat, now: int, ttl: nat)
    requires i < |t.order| && t.order[i] in t.records && IsActive(t.records[t.order[i]], now, ttl)
    ensures Walked(t, i + 1, now, ttl) == Walked(t, i, now, ttl)
  {
    WalkUnfold(t.order, i, t.records, now, ttl);
    assert t.order[i..] == [t.order[i]] + t.order[i + 1..];
  }

  /** Visiting an inactive key deletes it, from its place in the order and from
      the records. */
  lemma WalkDelete(t: Table, i: nat, now: int, ttl: nat)
    requires i < |t.order| && t.order[i] in t.records && !IsActive(t.records[t.order[i]], now, ttl)
    ensures var w := Walked(t, i, now, ttl);
      var j := |KeptKeys(t.order[..i], t.records, now, ttl)|;
      && j < |w.order|
      && Walked(t, i + 1, now, ttl) == Table(w.order[..j] + w.order[j + 1..], w.records - {t.order[i]})
  {
    var keys := t.order;
    var kept := KeptKeys(keys[..i], t.records, now, ttl);
    var order := kept + keys[i..];
    WalkUnfold(keys, i, t.records, now, ttl);
    assert keys[i..] == [keys[i]] + keys[i + 1..];
    assert order[..|kept|] + order[|kept| + 1..] == kept + keys[i + 1..];
  }

  lemma EntriesSnoc(keys: seq<Uuid>, k: Uuid, records: map<Uuid, Record>)
    requires forall k' :: k' in keys ==> k' in records
    requires k in records
    ensures Entries(keys + [k], records) == Entries(keys, records) + [EntryOf(k, records[k])]
  {
  }

  /** The list after visiting key `i`. */
  lemma OrchestraStep(t: Table, i: nat, now: int, ttl: nat)
    requires i < |t.order| && t.order[i] in t.records
    ensures |Orchestra(Table(t.order[..i], t.records), now, ttl)| == |KeptKeys(t.order[..i], t.records, now, ttl)|
    ensures Orchestra(Table(t.order[..i + 1], t.records), now, ttl)
         == Orchestra(Table(t.order[..i], t.records), now, ttl)
            + (if IsActive(t.records[t.order[i]], now, ttl) then [EntryOf(t.order[i], t.records[t.order[i]])] else [])
  {
    var kept := KeptKeys(t.order[..i], t.records, now, ttl);
    WalkUnfold(t.order, i, t.records, now, ttl);
    KeptKeysMembership(t.order[..i], t.records, now, ttl);
    if IsActive(t.records[t.order[i]], now, ttl) {
      EntriesSnoc(kept, t.order[i], t.records);
    }
  }

  // ---------------------------------------------------------------------------
  // What a snapshot returns

  /** The uuids of the list are the keys the Map keeps, in order. */
  lemma OrchestraUuids(t: Table, now: int, ttl: nat)
    ensures Uuids(Orchestra(t, now, ttl)) == Evict(t, now, ttl).order
  {
  }

  /** A musician is listed iff it is stored and active; its entry is copied from
      its record. */
  lemma SnapshotMembership(t: Table, now: int, ttl: nat, uuid: Uuid)
    requires WellFormed(t)
    ensures uuid in Uuids(Orchestra(t, now, ttl)) <==> uuid in t.records && IsActive(t.records[uuid], now, ttl)
    ensures forall e :: e in Orchestra(t, now, ttl) ==>
      e.uuid in t.records && e == EntryOf(e.uuid, t.records[e.uuid]) && e.uuid == t.records[e.uuid].uuid
  {
    OrchestraUuids(t, now, ttl);
    KeptKeysMembership(t.order, t.records, now, ttl);
  }

  /** The time-to-live boundary: heard exactly `ttl` seconds ago is listed; heard
      longer ago is neither listed nor kept. */
  lemma TtlBoundary(t: Table, now: int, ttl: nat, uuid: Uuid)
    requires WellFormed(t) && uuid in t.records && t.records[uuid].lastSound.Some?
    ensures now - t.records[uuid].lastSound.value == ttl ==> uuid in Uuids(Orchestra(t, now, ttl))
    ensures now - t.records[uuid].lastSound.value > ttl ==>
      uuid !in Uuids(Orchestra(t, now, ttl)) && uuid !in Evict(t, now, ttl).records
  {
    SnapshotMembership(t, now, ttl, uuid);
    EvictContents(t, now, ttl);
  }

  /** No uuid is listed twice. */
  lemma SnapshotDistinct(t: Table, now: int, ttl: nat)
    requires WellFormed(t)
    ensures Distinct(Uuids(Orchestra(t, now, ttl)))
  {
    OrchestraUuids(t, now, ttl);
    KeptKeysDistinct(t.order, t.records, now, ttl);
  }

  lemma {:induction false} KeptKeysKeepsOrder(keys: seq<Uuid>, records: map<Uuid, Record>, now: int, ttl: nat, a: Uuid, b: Uuid)
    requires Before(KeptKeys(keys, records, now, ttl), a, b)
    ensures Before(keys, a, b)
    decreases |keys|
  {
    var kept := KeptKeys(keys, records, now, ttl);
    var i, j :| 0 <= i < j < |kept| && kept[i] == a && kept[j] == b;
    var n := |keys|;
    var front := keys[..n - 1];
    var keptFront := KeptKeys(front, records, now, ttl);
    assert kept == keptFront + (if keys[n - 1] in records && IsActive(records[keys[n - 1]], now, ttl) then [keys[n - 1]] else []);
    if j < |keptFront| {
      assert keptFront[i] == a && keptFront[j] == b;
      KeptKeysKeepsOrder(front, records, now, ttl, a, b);
      var i', j' :| 0 <= i' < j' < |front| && front[i'] == a && front[j'] == b;
      assert keys[i'] == a && keys[j'] == b;
    } else {
      assert b == keys[n - 1];
      assert a in keptFront by { assert keptFront[i] == a; }
      KeptKeysMembership(front, records, now, ttl);
      assert a in front;
      var i' :| 0 <= i' < |front| && front[i'] == a;
      assert keys[i'] == a && keys[n - 1] == b;
    }
  }

  /** The list follows the Map's insertion order. */
  lemma SnapshotInInsertionOrder(t: Table, now: int, ttl: nat, a: Uuid, b: Uuid)
    requires Before(Uuids(Orchestra(t, now, ttl)), a, b)
    ensures Before(t.order, a, b)
  {
    OrchestraUuids(t, now, ttl);
    KeptKeysKeepsOrder(t.order, t.records, now, ttl, a, b);
  }

  /** An empty Map gives an empty list. */
  lemma EmptySnapshot(t: Table, now: int, ttl: nat)
    requires WellFormed(t) && t.records == map[]
    ensures Orchestra(t, now, ttl) == [] && Evict(t, now, ttl) == t
  {
  }

  // ---------------------------------------------------------------------------
  // What a snapshot deletes

  /** The pass deletes exactly the records it leaves out of the list: afterwards
      the Map holds exactly the listed uuids, and the kept records are unaltered. */
  lemma EvictDeletesExactlyExcluded(t: Table, now: int, ttl: nat)
    requires WellFormed(t)
    ensures forall k :: k in Evict(t, now, ttl).records <==> k in Uuids(Orchestra(t, now, ttl))
    ensures t.records.Keys - Evict(t, now, ttl).records.Keys
         == (set k | k in t.records && !IsActive(t.records[k], now, ttl))
    ensures forall k :: k in Evict(t, now, ttl).records ==> k in t.records && Evict(t, now, ttl).records[k] == t.records[k]
  {
    OrchestraUuids(t, now, ttl);
    KeptKeysMembership(t.order, t.records, now, ttl);
    EvictContents(t, now, ttl);
  }

  lemma {:induction false} KeptKeysOfKept(keys: seq<Uuid>, records: map<Uuid, Record>, now: int, ttl: nat)
    requires forall k :: k in keys ==> k in records && IsActive(records[k], now, ttl)
    ensures KeptKeys(keys, records, now, ttl) == keys
    ensures Evicted(records, keys, now, ttl) == records
    decreases |keys|
  {
    if keys != [] {
      var front, last := keys[..|keys| - 1], keys[|keys| - 1];
      assert keys == front + [last];
      KeptKeysOfKept(front, records, now, ttl);
      assert last in records && IsActive(records[last], now, ttl);
    }
  }

  lemma EntriesAgree(keys: seq<Uuid>, records: map<Uuid, Record>, records': map<Uuid, Record>)
    requires forall k :: k in keys ==> k in records && k in records' && records[k] == records'[k]
    ensures Entries(keys, records) == Entries(keys, records')
  {
  }

  /** A second snapshot at the same instant lists the same musicians and deletes
      nothing. */
  lemma SnapshotIdempotent(t: Table, now: int, ttl: nat)
    ensures Evict(Evict(t, now, ttl), now, ttl) == Evict(t, now, ttl)
    ensures Orchestra(Evict(t, now, ttl), now, ttl) == Orchestra(t, now, ttl)
  {
    var t' := Evict(t, now, ttl);
    KeptKeysMembership(t.order, t.records, now, ttl);
    EvictedMembership(t.records, t.order, now, ttl);
    assert forall k :: k in t'.order ==> k in t'.records && t'.records[k] == t.records[k];
    KeptKeysOfKept(t'.order, t'.records, now, ttl);
    EntriesAgree(t'.order, t'.records, t.records);
  }

  // ---------------------------------------------------------------------------
  // Announcements

  /** The same message received at each of `times` in turn. */
  function Replay(t: Table, m: Message, times: seq<int>): Table
    decreases |times|
  {
    if times == [] then t else Replay(Upsert(t, m, times[0]), m, times[1..])
  }

  lemma {:induction false} ReplayKnown(t: Table, m: Message, times: seq<int>)
    requires m.uuid in t.records && times != []
    ensures Replay(t, m, times).order == t.order
    ensures Replay(t, m, times).records
         == t.records[m.uuid := t.records[m.uuid].(lastSound := Some(times[|times| - 1]))]
    decreases |times|
  {
    var t1 := Upsert(t, m, times[0]);
    if |times| > 1 {
      ReplayKnown(t1, m, times[1..]);
      assert t1.records[m.uuid].(lastSound := Some(times[|times| - 1]))
          == t.records[m.uuid].(lastSound := Some(times[|times| - 1]));
    }
  }

  /** Announcing one uuid repeatedly leaves one record for it, with
      `activeSince` the first receipt and `lastSound` the last; a uuid heard only
      once has no `lastSound`. */
  lemma Reannouncement(t: Table, m: Message, times: seq<int>)
    requires WellFormed(t) && m.uuid !in t.records && times != []
    ensures var t' := Replay(t, m, times);
      && WellFormed(t')
      && t'.order == t.order + [m.uuid]
      && t'.records.Keys == t.records.Keys + {m.uuid}
      && t'.records[m.uuid].activeSince == times[0]
      && t'.records[m.uuid].lastUpdate == times[0]
      && t'.records[m.uuid].lastSound == (if |times| == 1 then None else Some(times[|times| - 1]))
  {
    var t1 := Upsert(t, m, times[0]);
    if |times| > 1 {
      ReplayKnown(t1, m, times[1..]);
      assert WellFormed(Replay(t1, m, times[1..])) by {
        var t' := Replay(t1, m, times[1..]);
        assert forall k :: k in t'.records <==> k in t1.records;
      }
    }
  }

  // ---------------------------------------------------------------------------
  // Histories: messages and connections in any order

  /** One handler call: a message received at `at`, or a connection accepted at
      `at`. */
  datatype Event = Heard(message: Message, at: int) | Pass(at: int)

  function Step(t: Table, e: Event, ttl: nat): Table
  {
    match e
    case Heard(m, at) => Upsert(t, m, at)
    case Pass(at) => Evict(t, at, ttl)
  }

  /** The Map after the handlers have run for `events`, in order. */
  function Run(t: Table, events: seq<Event>, ttl: nat): Table
    decreases |events|
  {
    if events == [] then t else Run(Step(t, events[0], ttl), events[1..], ttl)
  }

  /** No message of `events` comes from `uuid`. */
  predicate Silent(events: seq<Event>, uuid: Uuid)
  {
    forall i :: 0 <= i < |events| && events[i].Heard? ==> events[i].message.uuid != uuid
  }

  lemma SilentRest(events: seq<Event>, uuid: Uuid)
    requires events != [] && Silent(events, uuid)
    ensures Silent(events[1..], uuid)
  {
    forall i | 0 <= i < |events[1..]| && events[1..][i].Heard?
      ensures events[1..][i].message.uuid != uuid
    {
      assert events[1..][i] == events[i + 1];
    }
  }

  /** A uuid that is not stored stays out of the Map, whatever messages from
      other musicians and whatever passes follow, and the Map stays well-formed. */
  lemma {:induction false} StaysAbsent(t: Table, events: seq<Event>, ttl: nat, uuid: Uuid)
    requires WellFormed(t) && uuid !in t.records && Silent(events, uuid)
    ensures WellFormed(Run(t, events, ttl)) && uuid !in Run(t, events, ttl).records
    decreases |events|
  {
    if events != [] {
      if events[0].Pass? {
        EvictWellFormed(t, events[0].at, ttl);
      }
      SilentRest(events, uuid);
      StaysAbsent(Step(t, events[0], ttl), events[1..], ttl, uuid);
    }
  }

  /** A record without `lastSound` stays stored and unaltered, whatever messages
      from other musicians and whatever passes follow, and the Map stays
      well-formed. */
  lemma {:induction false} StaysStored(t: Table, events: seq<Event>, ttl: nat, uuid: Uuid)
    requires WellFormed(t) && uuid in t.records && t.records[uuid].lastSound.None? && Silent(events, uuid)
    ensures WellFormed(Run(t, events, ttl))
    ensures uuid in Run(t, events, ttl).records && Run(t, events, ttl).records[uuid] == t.records[uuid]
    decreases |events|
  {
    if events != [] {
      if events[0].Pass? {
        EvictWellFormed(t, events[0].at, ttl);
      }
      SilentRest(events, uuid);
      StaysStored(Step(t, events[0], ttl), events[1..], ttl, uuid);
    }
  }

  /** An evicted musician stays out of the Map and out of every later list,
      across any messages from other musicians and any passes, until a message
      of its own re-inserts it with a fresh `activeSince` and `lastUpdate` and
      no `lastSound`. */
  lemma EvictionIsPermanent(t: Table, now: int, ttl: nat, uuid: Uuid, events: seq<Event>, later: int, instrument: Option<Json.Value>)
    requires WellFormed(t) && uuid in t.records && !IsActive(t.records[uuid], now, ttl) && Silent(events, uuid)
    ensures var t' := Run(Evict(t, now, ttl), events, ttl);
      && uuid !in t'.records
      && uuid !in Uuids(Orchestra(t', later, ttl))
      && Upsert(t', Message(uuid, instrument), later).records[uuid] == Record(uuid, instrument, later, later, None)
  {
    var t' := Run(Evict(t, now, ttl), events, ttl);
    EvictWellFormed(t, now, ttl);
    StaysAbsent(Evict(t, now, ttl), events, ttl, uuid);
    SnapshotMembership(t', later, ttl, uuid);
  }

  /** A musician heard only once has no `lastSound`, so it passes the liveness
      test at every later instant: whatever messages from other musicians and
      whatever passes follow, it is still stored and listed by the next pass. */
  lemma HeardOnceNeverEvicted(t: Table, m: Message, now: int, events: seq<Event>, ttl: nat, later: int)
    requires WellFormed(t) && m.uuid !in t.records && Silent(events, m.uuid)
    ensures var t' := Run(Upsert(t, m, now), events, ttl);
      && m.uuid in t'.records
      && m.uuid in Uuids(Orchestra(t', later, ttl))
      && m.uuid in Evict(t', later, ttl).records
  {
    var t' := Run(Upsert(t, m, now), events, ttl);
    StaysStored(Upsert(t, m, now), events, ttl, m.uuid);
    SnapshotMembership(t', later, ttl, m.uuid);
  }
}
