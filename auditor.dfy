/** The auditor process: the module-level `musicians` Map and the two socket
    handlers that update it, one call per event (Node runs each handler to
    completion). */
module Auditor {
  import opened Wrappers
  import opened Registry
  import Json
  import Musician

  /** The property `name` of a parsed object: `undefined` when it has none. */
  function Field(fields: map<string, Json.Value>, name: string): Option<Json.Value>
  {
    if name in fields then Some(fields[name]) else None
  }

  /** The two property reads the message handler makes on the parsed datagram,
      `uuid` and then `instrument`. Reading a property of `null` throws a
      TypeError; any other value that is not an object has neither property. */
  function Decode(datagram: Json.Value): (r: Result<Message>)
    ensures r.Failure? <==> datagram.Null?
    ensures r.Success? ==>
      && (r.value.uuid.Some? <==> datagram.Obj? && "uuid" in datagram.fields)
      && (r.value.instrument.Some? <==> datagram.Obj? && "instrument" in datagram.fields)
    ensures r.Success? && datagram.Obj? ==>
      && (r.value.uuid.Some? ==> r.value.uuid.value == datagram.fields["uuid"])
      && (r.value.instrument.Some? ==> r.value.instrument.value == datagram.fields["instrument"])
  {
    match datagram
    case Null => Failure("TypeError: cannot read property 'uuid' of null")
    case Obj(fields) => Success(Message(Field(fields, "uuid"), Field(fields, "instrument")))
    case _ => Success(Message(None, None))
  }

  /** A musician's announcement decodes to its uuid as a string, with no
      instrument: the musician never writes that field. */
  lemma DecodeAnnouncement(a: Musician.Announcement)
    ensures Decode(Json.Obj(Musician.Fields(a))) == Success(Message(Some(Json.Str(a.uuid)), None))
  {
    assert "instrument" !in Musician.Fields(a);
  }

  /** Every stored musician lacks an instrument. */
  ghost predicate NoInstruments(t: Table)
  {
    forall k :: k in t.records ==> t.records[k].instrument.None?
  }

  /** Since announcements carry no instrument, a table filled only from them lists
      every musician without one, whatever snapshots are taken in between. */
  lemma AnnouncementsListNoInstrument(t: Table, a: Musician.Announcement, now: int, later: int, ttl: nat)
    requires WellFormed(t) && NoInstruments(t)
    ensures var r := Decode(Json.Obj(Musician.Fields(a)));
      r.Success? && NoInstruments(Upsert(t, r.value, now))
    ensures NoInstruments(Evict(t, later, ttl))
    ensures forall e :: e in Orchestra(t, later, ttl) ==> e.instrument.None?
  {
    DecodeAnnouncement(a);
  }

  /** The `musicians` Map of the auditor. */
  class Musicians {
    var order: seq<Uuid>
    var records: map<Uuid, Record>

    function Contents(): Table
      reads this
    {
      Table(order, records)
    }

    ghost predicate Valid()
      reads this
    {
      WellFormed(Contents())
    }

    constructor ()
      ensures Valid() && Contents() == Empty
    {
      order := [];
      records := map[];
    }

    /** The "message" handler, for a datagram JSON.parse has already turned into
        `datagram`, received at `now`. It throws, leaving the Map as it was, when
        the datagram is `null`. */
    method OnMessage(datagram: Json.Value, now: int) returns (thrown: bool)
      requires Valid()
      modifies this
      ensures Valid()
      ensures thrown <==> Decode(datagram).Failure?
      ensures thrown ==> Contents() == old(Contents())
      ensures !thrown ==> Contents() == Upsert(old(Contents()), Decode(datagram).value, now)
    {
      var decoded := Decode(datagram);
      if decoded.Failure? {
        return true;
      }
      thrown := false;
      var message := decoded.value;
      if message.uuid in records {
        records := records[message.uuid := records[message.uuid].(lastSound := Some(now))];
      } else {
        records := records[message.uuid := Record(message.uuid, message.instrument, now, now, None)];
        order := order + [message.uuid];
      }
    }

    /** The "connection" handler: walks the Map in insertion order, collects the
        active musicians and deletes the others as it goes, with the configured
        time-to-live. Returns the list it writes to the client. */
    method OnConnection(now: int) returns (orchestra: seq<Entry>)
      requires Valid()
      modifies this
      ensures Valid()
      ensures orchestra == Orchestra(old(Contents()), now, ACTIVE_TIME_IN_SECONDS)
      ensures Contents() == Evict(old(Contents()), now, ACTIVE_TIME_IN_SECONDS)
    {
      // forEach visits the entries present when it starts; deleting the entry
      // being visited does not disturb the rest of the walk
      var ttl := ACTIVE_TIME_IN_SECONDS;
      ghost var t0 := Contents();
      var keys := order;
      orchestra := [];
      var i := 0;
      WalkStart(t0, now, ttl);
      while i < |keys|
        invariant 0 <= i <= |keys| && keys == t0.order
        invariant Contents() == Walked(t0, i, now, ttl)
        invariant orchestra == Orchestra(Table(keys[..i], t0.records), now, ttl)
      {
        var uuid := keys[i];
        assert uuid in records && records[uuid] == t0.records[uuid] by {
          WalkVisits(t0, i, now, ttl);
        }
        orchestra := Visit(t0, i, uuid, records[uuid], now, ttl, orchestra);
        i := i + 1;
      }
      assert Contents() == Evict(t0, now, ttl) && orchestra == Orchestra(t0, now, ttl) by {
        WalkEnd(t0, now, ttl);
      }
      assert Valid() by {
        EvictWellFormed(t0, now, ttl);
      }
    }

    /** The forEach callback, for the entry at position `i` of the walk over
        `t0`: an active musician is appended to the list, an inactive one is
        deleted from the Map. */
    method Visit(ghost t0: Table, ghost i: nat, uuid: Uuid, musician: Record, now: int, ttl: nat, orchestra: seq<Entry>)
      returns (orchestra': seq<Entry>)
      requires WellFormed(t0) && i < |t0.order| && uuid == t0.order[i]
      requires uuid in t0.records && musician == t0.records[uuid]
      requires Contents() == Walked(t0, i, now, ttl)
      requires orchestra == Orchestra(Table(t0.order[..i], t0.records), now, ttl)
      modifies this
      ensures Contents() == Walked(t0, i + 1, now, ttl)
      ensures orchestra' == Orchestra(Table(t0.order[..i + 1], t0.records), now, ttl)
    {
      OrchestraStep(t0, i, now, ttl);
      if IsActive(musician, now, ttl) {
        WalkKeep(t0, i, now, ttl);
        orchestra' := orchestra + [EntryOf(uuid, musician)];
      } else {
        // the visited key sits right after the musicians kept so far
        var j := |orchestra|;
        WalkDelete(t0, i, now, ttl);
        order := order[..j] + order[j + 1..];
        records := records - {uuid};
        orchestra' := orchestra;
      }
    }
  }
}
