/** The musician side of the orchestra: the instrument-to-sound table and the
    announcement a musician broadcasts every second. */
module Musician {
  import opened Wrappers
  import Json

  /** The sound each known instrument plays. */
  const Sounds: map<string, string> := map[
    "piano" := "ti-ta-ti",
    "trumpet" := "pouet",
    "flute" := "trulu",
    "violin" := "gzi-gzi",
    "drum" := "boum-boum"
  ]

  predicate IsKnown(instrument: Option<string>)
  {
    instrument.Some? && instrument.value in Sounds
  }

  /** getSound: a switch over the instrument name, with the empty string as the
      default case. The argument comes straight from the command line and may be
      missing (`undefined`), which no case matches. */
  function GetSound(instrument: Option<string>): (sound: string)
    ensures IsKnown(instrument) ==> sound == Sounds[instrument.value]
    ensures sound == "" <==> !IsKnown(instrument)
  {
    match instrument
    case None => ""
    case Some(name) =>
      if name == "piano" then "ti-ta-ti"
      else if name == "trumpet" then "pouet"
      else if name == "flute" then "trulu"
      else if name == "violin" then "gzi-gzi"
      else if name == "drum" then "boum-boum"
      else ""
  }

  /** On the known instruments the sound determines the instrument. */
  lemma SoundIdentifiesInstrument(a: string, b: string)
    requires a in Sounds && b in Sounds
    requires GetSound(Some(a)) == GetSound(Some(b))
    ensures a == b
  {
  }

  /** The record `playSound` serialises: exactly these three fields, and no
      instrument. */
  datatype Announcement = Announcement(uuid: string, timestamp: int, sound: string)

  /** The announcement as a receiver's JSON.parse sees it once JSON.stringify
      has written it: an object with the three fields and nothing else. */
  function Fields(a: Announcement): map<string, Json.Value>
  {
    map["uuid" := Json.Str(a.uuid), "timestamp" := Json.Number(a.timestamp), "sound" := Json.Str(a.sound)]
  }

  /** A musician: its uuid and its sound are fixed when it is created. The
      instrument it was created with is not kept by the program; it is recorded
      here as a ghost to state where the sound comes from. */
  class Musician {
    const uuid: string
    const sound: string
    ghost const instrument: Option<string>

    /** The sound is the instrument's, for the life of the object. */
    ghost predicate Valid()
    {
      sound == GetSound(instrument)
    }

    /** `uuid` is the value uuidv4() produced; the interval timer that drives
        `PlaySound` is not part of this model. */
    constructor (uuid: string, instrument: Option<string>)
      ensures Valid()
      ensures this.uuid == uuid && this.instrument == instrument
      ensures sound == GetSound(instrument)
    {
      this.uuid := uuid;
      this.instrument := instrument;
      this.sound := GetSound(instrument);
    }

    /** Builds the announcement for one tick; `timestamp` is the sender's clock
        (Date.now()). Sending the datagram is not modelled. */
    method PlaySound(timestamp: int) returns (announcement: Announcement)
      requires Valid()
      ensures announcement.uuid == uuid
      ensures announcement.sound == GetSound(instrument)
      ensures announcement.timestamp == timestamp
    {
      announcement := Announcement(uuid, timestamp, sound);
    }
  }
}
