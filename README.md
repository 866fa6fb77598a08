# Orchestra: the auditor's musician registry

The orchestra is two Node.js programs. A *musician* is started with an
instrument name and broadcasts an announcement every second on a UDP multicast
group: `{uuid, timestamp, sound}`, where the sound comes from a fixed
instrument-to-sound table. The *auditor* listens to the group and keeps a
`Map` from uuid to musician record. Any TCP client that connects receives the
list of active musicians. Musicians found inactive during that pass are
deleted from the Map.

This project models both sides in Dafny:

- `Musician` (musician.dfy) has `getSound`, the musician object with its
  fixed `uuid` and `sound`, and the announcement `playSound` builds.
- `Registry` (registry.dfy) holds the auditor's Map as a value, a `Table`
  that pairs the insertion order of the keys with the stored records. It
  defines:
  - `Upsert`, the update made for a message;
  - `IsActive`, the liveness test;
  - `Orchestra`, the list a connection receives;
  - `Evict`, the Map after the connection handler's pass.

  It also proves the properties of these operations.
- `Auditor` (auditor.dfy) has the `musicians` Map as a class whose two handler
  methods change it in place. Each method is proved equal to the `Registry`
  function it implements. The connection handler is a loop over the keys
  present when it starts. Its callback appends active musicians to the list
  and deletes inactive ones from the Map while the walk goes on.
- `Json` (json.dfy) defines the values `JSON.parse` produces. The auditor
  reads its message fields from these values, and a uuid may be any of them.
- `Wrappers` (wrappers.dfy) defines `Option`, which stands for JavaScript's
  `undefined`, and `Result`, for an operation that may throw.

Times are whole seconds. The connection handler's time-to-live is
`ACTIVE_TIME_IN_SECONDS`, which is 5. The pure functions take it as a
parameter.

The model follows the code's actual behaviour, quirks included:

- A new musician is stored without `lastSound`. Only a second announcement
  from the same uuid sets that field.
- The liveness test compares against `undefined`, which moment reads as the
  current instant. So a musician heard only once is always active and is
  never evicted (`Registry.HeardOnceNeverEvicted`).
- Setting `lastSound` on insert as well would put a new musician under the
  time-to-live from its first message. The code does not do this.
- The auditor reads an `instrument` field from each datagram, but the
  musician never sends one (`Auditor.AnnouncementsListNoInstrument`).
- Nothing rejects a datagram without a `uuid`. Such a datagram is filed under
  the key `undefined`. A uuid that is a number is filed under a different key
  from the string with the same digits.
- A datagram that parses to `null` makes the handler throw when it reads
  `uuid`, and the Map is left as it was.

## Model

| member | source | states |
|---|---|---|
| Musician.GetSound | docker/image-musician/src/musician.js:34-49 | each of the five instruments gets its sound from the table (piano "ti-ta-ti", trumpet "pouet", flute "trulu", violin "gzi-gzi", drum "boum-boum"); the result is "" exactly when the instrument is not one of them, a missing argument included |
| Musician.SoundIdentifiesInstrument | docker/image-musician/src/musician.js:36-45 | two known instruments with the same sound are the same instrument |
| Musician.Musician.constructor | docker/image-musician/src/musician.js:55-57 | the musician keeps the uuid it was given and the sound getSound gives for its instrument, both fixed for its life |
| Musician.Musician.PlaySound | docker/image-musician/src/musician.js:63-68 | the announcement carries the musician's uuid, the sound of its instrument and the given timestamp; the record has no instrument field |
| Registry.Upsert | docker/image-auditor/src/auditor.js:31-48 | the key set becomes the old one plus the message's uuid and other records are untouched; a known uuid keeps its place, instrument, activeSince and lastUpdate and gets lastSound = now; an unknown uuid is appended at the end with activeSince = lastUpdate = now, the message's instrument and no lastSound; a well-formed Map stays well-formed |
| Registry.Orchestra | docker/image-auditor/src/auditor.js:55-66 | every listed entry is a stored, active musician, copied from its record as {key, instrument, activeSince}; SnapshotMembership, SnapshotDistinct and SnapshotInInsertionOrder describe the list fully |
| Registry.Evict | docker/image-auditor/src/auditor.js:55-72 | the keys left in order are exactly the walked, stored, active ones; a record is left iff it was not a walked inactive one; no record is altered; EvictContents and EvictDeletesExactlyExcluded give the rest |
| Registry.IsActive | docker/image-auditor/src/auditor.js:57-61 | a record without lastSound is active; one with lastSound is active iff now - lastSound <= ttl |
| Registry.KeptKeysMembership | docker/image-auditor/src/auditor.js:55-66 | a key is kept by the walk iff it is walked, stored and active |
| Registry.KeptKeysDistinct | docker/image-auditor/src/auditor.js:55-66 | walking distinct keys keeps distinct keys |
| Registry.EvictedMembership | docker/image-auditor/src/auditor.js:55-72 | a record survives the walk iff it is not a walked inactive key, and it survives unaltered |
| Registry.EvictContents | docker/image-auditor/src/auditor.js:55-72 | of a well-formed Map the pass keeps exactly the active records, unaltered |
| Registry.EvictWellFormed | docker/image-auditor/src/auditor.js:55-72 | the pass leaves a well-formed Map: distinct keys, order and records agreeing, each record under its uuid |
| Registry.WalkVisits | docker/image-auditor/src/auditor.js:55 | deleting earlier entries does not disturb the walk: the key visited at step i is still stored, unaltered, right after the musicians kept so far |
| Registry.WalkKeep | docker/image-auditor/src/auditor.js:57-66 | visiting an active musician leaves the Map as it was |
| Registry.WalkDelete | docker/image-auditor/src/auditor.js:67-70 | visiting an inactive musician removes its key from its place in the order and its record from the Map |
| Registry.OrchestraStep | docker/image-auditor/src/auditor.js:57-66 | visiting a key appends its entry to the list iff it is active |
| Registry.SnapshotMembership | docker/image-auditor/src/auditor.js:55-66 | a uuid is listed iff it is stored and active; every entry is the Map key with the record's instrument and activeSince |
| Registry.TtlBoundary | docker/image-auditor/src/auditor.js:57-61 | a musician last heard exactly ttl seconds ago is listed; one heard longer ago is neither listed nor kept |
| Registry.SnapshotDistinct | docker/image-auditor/src/auditor.js:55-66 | no uuid is listed twice |
| Registry.KeptKeysKeepsOrder | docker/image-auditor/src/auditor.js:55-66 | if the walk keeps a before b, then a comes before b in the walked keys |
| Registry.SnapshotInInsertionOrder | docker/image-auditor/src/auditor.js:55-66 | the list follows the Map's insertion order |
| Registry.EmptySnapshot | docker/image-auditor/src/auditor.js:52-75 | an empty Map gives the empty list and stays empty |
| Registry.EvictDeletesExactlyExcluded | docker/image-auditor/src/auditor.js:55-72 | after the pass the Map holds exactly the listed uuids; the deleted keys are exactly the inactive ones; kept records are unaltered |
| Registry.KeptKeysOfKept | docker/image-auditor/src/auditor.js:55-72 | walking only active, stored keys keeps them all and deletes nothing |
| Registry.SnapshotIdempotent | docker/image-auditor/src/auditor.js:55-72 | a second pass at the same instant returns the same list and deletes nothing |
| Registry.StaysAbsent | docker/image-auditor/src/auditor.js:31-72 | a uuid not in the Map stays out of it through any sequence of other musicians' messages and of passes, and the Map stays well-formed |
| Registry.StaysStored | docker/image-auditor/src/auditor.js:31-72 | a record without lastSound stays stored and unaltered through any sequence of other musicians' messages and of passes |
| Registry.EvictionIsPermanent | docker/image-auditor/src/auditor.js:38-72 | after any sequence of other musicians' messages and of passes, an evicted uuid is still absent from the Map and from the next list, and its own next message re-inserts it with a fresh activeSince and lastUpdate and no lastSound |
| Registry.ReplayKnown | docker/image-auditor/src/auditor.js:35-37 | repeated messages from a known uuid change only its lastSound, which ends as the last receipt time |
| Registry.Reannouncement | docker/image-auditor/src/auditor.js:35-47 | a uuid announced repeatedly has one record, appended once, with activeSince and lastUpdate from the first receipt and lastSound from the last one (none if heard once) |
| Registry.HeardOnceNeverEvicted | docker/image-auditor/src/auditor.js:40-61 | after any sequence of other musicians' messages and of passes, a musician heard only once is still stored, listed by the next pass and kept by it |
| Auditor.Decode | docker/image-auditor/src/auditor.js:32-42 | reading a property of a null datagram throws; otherwise the uuid and the instrument are present iff the datagram is an object with that field, and then they are its value |
| Auditor.DecodeAnnouncement | docker/image-auditor/src/auditor.js:32-42 | the fields a musician writes decode to its uuid as a string and no instrument, because "instrument" is not one of them |
| Auditor.AnnouncementsListNoInstrument | docker/image-auditor/src/auditor.js:40-66 | when the Map is filled only from musicians' announcements, no record and no listed entry has an instrument |
| Auditor.Musicians.constructor | docker/image-auditor/src/auditor.js:23 | the Map starts empty |
| Auditor.Musicians.OnMessage | docker/image-auditor/src/auditor.js:31-48 | a null datagram throws and leaves the Map as it was; any other gives exactly Registry.Upsert of the old Map with the decoded message; the Map stays well-formed |
| Auditor.Musicians.OnConnection | docker/image-auditor/src/auditor.js:51-72 | the loop returns exactly Registry.Orchestra of the Map it started from, with the configured time-to-live, and leaves exactly Registry.Evict of it |
| Auditor.Musicians.Visit | docker/image-auditor/src/auditor.js:55-71 | one forEach callback moves the Map and the list from the state after i visited keys to the state after i + 1 |

## Left out

- Sockets: joining the multicast group, binding, listening, `socket.write`
  and the musician's `s.send`, since these are I/O. `socket.end` is a
  property access that does nothing, so nothing is lost there.
- `JSON.parse` and `JSON.stringify`, which are library code. The handler
  receives the value `JSON.parse` returned. A datagram that is not valid JSON
  makes `JSON.parse` throw, uncaught, and that path is not modelled. The
  exception thrown for a `null` datagram is modelled as an outcome; the
  process exit that follows it is not.
- Numbers in JSON are whole numbers here. Fractional and exponent numbers are
  not represented.
- A uuid that is a JSON object or array. The source's Map compares such keys
  by reference, so every message carrying one appends a new record, and no
  later message matches it. This model compares keys by content. Such
  messages therefore update one record, where the source stores one record
  per message.
- Registry.Orchestra, Registry.Evict, Auditor.Musicians.OnConnection: the
  source reads the clock again for each entry it visits. The model judges the
  whole pass at one instant `now`, so a musician visited later in a real pass
  is judged a little later than here.
- moment's date strings and clock. Times are whole seconds passed in as
  `now`, and `activeSince` is returned as a number rather than as a
  formatted string.
- Registry.IsActive: the source compares a millisecond clock with a time
  stored at second precision. In the boundary second the real outcome
  therefore also depends on the milliseconds, which this model does not
  represent.
- Registry.Upsert: the two separate clock reads for `activeSince` and
  `lastUpdate` are taken as one instant.
- `uuidv4()`, `Date.now()`, the one-second `setInterval` timer and reading
  the instrument from the command line. The uuid, timestamp and instrument
  are parameters. The `orchestra-protocol` module is not part of this model.
- `console.log` output.
- Concurrency. Node runs each handler to completion, so each handler is one
  method call.
- The settings files, apart from `ACTIVE_TIME_IN_SECONDS`. Addresses and
  ports belong to the I/O that is left out.
