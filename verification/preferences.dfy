/**
 * The preference file. Its contents are modelled abstractly: the file is
 * missing, cannot be read, holds text that is not JSON, or holds a parsed
 * JSON document. Every failure while loading falls back to light mode.
 */
module Preferences {

  /** A parsed JSON value (numbers are kept as integers). */
  datatype Json =
    | JNull
    | JBool(b: bool)
    | JInt(i: int)
    | JString(s: string)
    | JArray(items: seq<Json>)
    | JObject(members: map<string, Json>)

  /** The state of the preference file on disk. */
  datatype ConfigFile =
    | Missing                // no file at the path
    | Unreadable             // the path exists but cannot be opened or read
    | Malformed              // the text is not a JSON document
    | Document(doc: Json)    // the parsed document

  /** How an attempt to write the file ended. */
  datatype WriteOutcome =
    | Written        // the whole record was written
    | NotOpened      // the file could not be opened for writing; it is unchanged
    | Interrupted    // opened (and so emptied) but not completely written

  const DarkModeKey: string := "dark_mode"

  /** The value the loader hands back: the document's "dark_mode" member when
      the file holds a JSON object with that key, and false in every other
      case (missing file, read error, invalid JSON, a document that is not
      an object, an object without the key). Other keys are ignored. */
  function LoadPreferences(file: ConfigFile): (v: Json)
    ensures file.Document? && file.doc.JObject? && DarkModeKey in file.doc.members
            ==> v == file.doc.members[DarkModeKey]
    ensures !(file.Document? && file.doc.JObject? && DarkModeKey in file.doc.members)
            ==> v == JBool(false)
  {
    match file
    case Document(JObject(members)) =>
      if DarkModeKey in members then members[DarkModeKey] else JBool(false)
    case _ => JBool(false)
  }

  /** Whether a value counts as true when used as a condition: false, null,
      zero, and empty strings, arrays and objects count as false. */
  function Truthy(v: Json): bool {
    match v
    case JNull => false
    case JBool(b) => b
    case JInt(i) => i != 0
    case JString(s) => s != ""
    case JArray(items) => |items| != 0
    case JObject(members) => |members| != 0
  }

  /** Whether the widget starts in dark mode with this file on disk. */
  function StartsDark(file: ConfigFile): bool {
    Truthy(LoadPreferences(file))
  }

  /** The record written on every save: an object with the one key. */
  function PreferenceRecord(isDark: bool): (doc: Json)
    ensures doc.JObject? && doc.members.Keys == {DarkModeKey}
    ensures doc.members[DarkModeKey] == JBool(isDark)
  {
    JObject(map[DarkModeKey := JBool(isDark)])
  }

  /** The file after an attempt to save the flag. Every incomplete write of
      the record leaves text that is not a JSON document. */
  function AfterSave(file: ConfigFile, isDark: bool, outcome: WriteOutcome): ConfigFile {
    match outcome
    case Written => Document(PreferenceRecord(isDark))
    case NotOpened => file
    case Interrupted => Malformed
  }

  /** A saved flag is what the next start loads: the record's value is the
      boolean itself, and it decides the starting mode. */
  lemma SaveLoadRoundTrip(file: ConfigFile, isDark: bool)
    ensures LoadPreferences(AfterSave(file, isDark, Written)) == JBool(isDark)
    ensures StartsDark(AfterSave(file, isDark, Written)) == isDark
  {
  }

  /** A failed save never breaks the next start: an interrupted write starts
      in light mode, and a write that could not open the file leaves the
      previous preference in force. */
  lemma FailedSaveFallsBack(file: ConfigFile, isDark: bool)
    ensures !StartsDark(AfterSave(file, isDark, Interrupted))
    ensures StartsDark(AfterSave(file, isDark, NotOpened)) == StartsDark(file)
  {
  }

  /** The starting mode for each kind of file: a record with "dark_mode"
      true starts dark; a missing, unreadable or malformed file, or a
      document that is not an object, starts light; an object without the
      key starts light; other keys do not matter. */
  lemma StartupModes(members: map<string, Json>, doc: Json)
    ensures StartsDark(Document(JObject(map[DarkModeKey := JBool(true)])))
    ensures !StartsDark(Missing) && !StartsDark(Unreadable) && !StartsDark(Malformed)
    ensures !doc.JObject? ==> !StartsDark(Document(doc))
    ensures DarkModeKey !in members ==> !StartsDark(Document(JObject(members)))
    ensures DarkModeKey in members ==> StartsDark(Document(JObject(members))) == Truthy(members[DarkModeKey])
  {
  }
}
