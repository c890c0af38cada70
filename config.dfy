/**
  The configuration loaded on every request: the stored document, when it can
  be read, is laid over the built-in defaults key by key at the top level; when
  it is missing or cannot be read, the defaults are written back and used as
  they are. The file itself is represented by what reading it produced.
*/
module Config {
  import Slots

  /** A JSON value; numbers are integers here. */
  datatype Json =
    | JNull
    | JBool(b: bool)
    | JNum(n: int)
    | JStr(s: string)
    | JArr(items: seq<Json>)
    | JObj(fields: map<string, Json>)

  function OpenDay(): Json
  {
    JObj(map["start" := JStr("09:00"), "end" := JStr("17:00")])
  }

  function MeetingType(id: string, name: string, duration: int, description: string): Json
  {
    JObj(map["id" := JStr(id), "name" := JStr(name), "duration" := JNum(duration), "description" := JStr(description)])
  }

  /** The built-in default configuration. */
  const DefaultConfig: map<string, Json> := map[
    "ownerName" := JStr("Your Name"),
    "ownerEmail" := JStr("you@example.com"),
    "calendarId" := JStr("primary"),
    "meetingDuration" := JNum(Slots.DefaultMeetingDuration),
    "bufferTime" := JNum(Slots.DefaultBufferTime),
    "availability" := JObj(map[
      "monday" := OpenDay(),
      "tuesday" := OpenDay(),
      "wednesday" := OpenDay(),
      "thursday" := OpenDay(),
      "friday" := OpenDay(),
      "saturday" := JNull,
      "sunday" := JNull]),
    "timezone" := JStr("Europe/Madrid"),
    "brandColor" := JStr("#4F46E5"),
    "logoUrl" := JNull,
    "meetingTypes" := JArr([
      MeetingType("intro", "Intro Call", 30, "Quick intro call"),
      MeetingType("deep-dive", "Deep Dive", 60, "In-depth session")]),
    "smtp" := JObj(map["host" := JStr("smtp.gmail.com"), "port" := JNum(587), "user" := JStr(""), "pass" := JStr("")])]

  /** What reading the configuration file gave: no file, a read or parse failure, or a parsed object. */
  datatype Stored = Missing | Unreadable | Document(fields: map<string, Json>)

  /** The configuration in force, and whether the defaults were written back to the file. */
  datatype Loaded = Loaded(config: map<string, Json>, rewroteDefaults: bool)

  /** Shallow merge: every key of either map, with the stored value winning; nested objects are replaced whole. */
  function Merge(defaults: map<string, Json>, stored: map<string, Json>): (r: map<string, Json>)
    ensures r.Keys == defaults.Keys + stored.Keys
    ensures forall k :: k in stored ==> r[k] == stored[k]
    ensures forall k :: k in defaults && k !in stored ==> r[k] == defaults[k]
  {
    defaults + stored
  }

  function LoadConfig(stored: Stored): (r: Loaded)
    ensures r.rewroteDefaults <==> !stored.Document?
    ensures DefaultConfig.Keys <= r.config.Keys
    ensures stored.Document? ==> r.config.Keys == DefaultConfig.Keys + stored.fields.Keys
    ensures stored.Document? ==> forall k :: k in stored.fields ==> r.config[k] == stored.fields[k]
    ensures stored.Document? ==> forall k :: k in DefaultConfig && k !in stored.fields ==> r.config[k] == DefaultConfig[k]
    ensures !stored.Document? ==> r.config == DefaultConfig
  {
    match stored
    case Document(fields) => Loaded(Merge(DefaultConfig, fields), false)
    case _ => Loaded(DefaultConfig, true)
  }

  /** After the defaults are written back, the next load reads them and yields the same configuration. */
  lemma ReloadAfterRewrite(stored: Stored)
    requires !stored.Document?
    ensures LoadConfig(Document(LoadConfig(stored).config)).config == LoadConfig(stored).config
    ensures !LoadConfig(Document(LoadConfig(stored).config)).rewroteDefaults
  {
  }
}
